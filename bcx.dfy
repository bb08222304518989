/** The BCX parser of `ff7-model-viewer/model-viewer.js` as it runs: every `parse...` function
    moves the little-endian cursor, jumping to the offsets the headers give and saving and
    restoring the offset around the data of a part or an animation. Each method is proved to
    yield what the layout functions of `BcxLayout` describe. */
module Bcx {
  import opened Bytes
  import opened LeReader
  import opened BcxLayout

  /** The run of records is all that was read once none is left to read. */
  lemma RunDone<T>(xs: seq<T>, read: int -> Result<T>, p: int, stride: nat)
    ensures Preceded(xs, RecordsAt(read, p, stride, 0)) == Ok(Placed(xs, p))
  {
    assert xs + [] == xs;
  }

  // ---------------------------------------------------------------- headers

  /** `parseBCXHeader`. */
  method ParseBcxHeader(reader: Reader) returns (r: Result<BcxHeader>)
    modifies reader
    ensures Landed(r, reader.offset) == BcxHeaderAt(reader.buffer, old(reader.offset))
  {
    var fileSize :- reader.GetUint32();
    var offsetModels :- reader.GetUint32();
    r := Ok(BcxHeader(fileSize := fileSize, offsetModels := offsetModels));
  }

  /** `parseModelHeader`. */
  method ParseModelHeader(reader: Reader) returns (r: Result<ModelHeader>)
    modifies reader
    ensures Landed(r, reader.offset) == ModelHeaderAt(reader.buffer, old(reader.offset))
  {
    var unknown :- reader.GetUint16();
    var numberOfBones :- reader.GetUint8();
    var numberOfParts :- reader.GetUint8();
    var numberOfAnimations :- reader.GetUint8();
    var blank :- reader.GetBytes(17);
    var scale :- reader.GetUint16();
    var offsetParts :- reader.GetUint16();
    var offsetAnimations :- reader.GetUint16();
    var offsetSkeleton :- reader.GetUint32();
    r := Ok(ModelHeader(
      blank := blank,
      numberOfAnimations := numberOfAnimations,
      numberOfBones := numberOfBones,
      numberOfParts := numberOfParts,
      offsetAnimations := offsetAnimations,
      offsetParts := offsetParts,
      offsetSkeleton := Mask31(offsetSkeleton),
      scale := scale,
      unknown := unknown));
  }

  /** `parseModelPartHeader`. */
  method ParseModelPartHeader(reader: Reader) returns (r: Result<PartHeader>)
    modifies reader
    ensures Landed(r, reader.offset) == PartHeaderAt(reader.buffer, old(reader.offset))
  {
    ghost var b, p := reader.buffer, reader.offset;
    var unknown :- reader.GetUint8();
    assert unknown == b[p];
    var boneIndex :- reader.GetUint8();
    assert boneIndex == b[p + 1];
    var numberOfVertices :- reader.GetUint8();
    assert numberOfVertices == b[p + 2];
    var numberOfTextureCoords :- reader.GetUint8();
    assert numberOfTextureCoords == b[p + 3];
    var numberOfColorTexturedQuads :- reader.GetUint8();
    assert numberOfColorTexturedQuads == b[p + 4];
    var numberOfColorTexturedTriangles :- reader.GetUint8();
    assert numberOfColorTexturedTriangles == b[p + 5];
    var numberOfMonochromeTexturedQuads :- reader.GetUint8();
    assert numberOfMonochromeTexturedQuads == b[p + 6];
    var numberOfMonochromeTexturedTriangles :- reader.GetUint8();
    assert numberOfMonochromeTexturedTriangles == b[p + 7];
    var numberOfMonochromeTriangles :- reader.GetUint8();
    assert numberOfMonochromeTriangles == b[p + 8];
    var numberOfMonochromeQuads :- reader.GetUint8();
    assert numberOfMonochromeQuads == b[p + 9];
    var numberOfColorTriangles :- reader.GetUint8();
    assert numberOfColorTriangles == b[p + 10];
    var numberOfColorQuads :- reader.GetUint8();
    assert numberOfColorQuads == b[p + 11];
    var numberOfBytesForFlags :- reader.GetUint8();
    assert numberOfBytesForFlags == b[p + 12];
    var numberOfBytesForControl :- reader.GetUint8();
    assert numberOfBytesForControl == b[p + 13];
    var offsetPolygon :- reader.GetUint16();
    assert offsetPolygon == U16(b, p + 14);
    var offsetTextureCoords :- reader.GetUint16();
    assert offsetTextureCoords == U16(b, p + 16);
    var offsetFlags :- reader.GetUint16();
    assert offsetFlags == U16(b, p + 18);
    var offsetControl :- reader.GetUint16();
    assert offsetControl == U16(b, p + 20);
    var bufferSize :- reader.GetUint16();
    assert bufferSize == U16(b, p + 22);
    var offsetVertices :- reader.GetUint32();
    assert offsetVertices == U32(b, p + 24);
    var offsetPrec :- reader.GetUint32();
    assert offsetPrec == U32(b, p + 28);
    r := Ok(PartHeader(
      boneIndex := boneIndex,
      bufferSize := bufferSize,
      numberOfBytesForControl := numberOfBytesForControl,
      numberOfBytesForFlags := numberOfBytesForFlags,
      numberOfColorQuads := numberOfColorQuads,
      numberOfColorTexturedQuads := numberOfColorTexturedQuads,
      numberOfColorTexturedTriangles := numberOfColorTexturedTriangles,
      numberOfColorTriangles := numberOfColorTriangles,
      numberOfMonochromeQuads := numberOfMonochromeQuads,
      numberOfMonochromeTexturedQuads := numberOfMonochromeTexturedQuads,
      numberOfMonochromeTexturedTriangles := numberOfMonochromeTexturedTriangles,
      numberOfMonochromeTriangles := numberOfMonochromeTriangles,
      numberOfTextureCoords := numberOfTextureCoords,
      numberOfVertices := numberOfVertices,
      offsetControl := offsetControl,
      offsetFlags := offsetFlags,
      offsetPolygon := offsetPolygon,
      offsetPrec := offsetPrec,
      offsetTextureCoords := offsetTextureCoords,
      offsetVertices := Mask31(offsetVertices),
      unknown := unknown));
  }

  /** `parseModelAnimationsHeader`. */
  method ParseModelAnimationsHeader(reader: Reader) returns (r: Result<AnimationHeader>)
    modifies reader
    ensures Landed(r, reader.offset) == AnimationHeaderAt(reader.buffer, old(reader.offset))
  {
    var numberOfFrames :- reader.GetUint16();
    var numberOfChannels :- reader.GetUint8();
    var numberOfFramesTranslation :- reader.GetUint8();
    var numberOfStaticTranslation :- reader.GetUint8();
    var numberOfFramesRotation :- reader.GetUint8();
    var offsetFramesTranslation :- reader.GetUint16();
    var offsetStaticTranslation :- reader.GetUint16();
    var offsetFramesRotation :- reader.GetUint16();
    var offsetData :- reader.GetUint32();
    r := Ok(AnimationHeader(
      numberOfChannels := numberOfChannels,
      numberOfFrames := numberOfFrames,
      numberOfFramesRotation := numberOfFramesRotation,
      numberOfFramesTranslation := numberOfFramesTranslation,
      numberOfStaticTranslation := numberOfStaticTranslation,
      offsetData := Mask31(offsetData),
      offsetFramesRotation := offsetFramesRotation,
      offsetFramesTranslation := offsetFramesTranslation,
      offsetStaticTranslation := offsetStaticTranslation));
  }

  // ---------------------------------------------------------------- skeleton

  /** One turn of the skeleton map: length, parent, has-mesh. */
  method ReadBone(reader: Reader) returns (r: Result<Bone>)
    modifies reader
    ensures r == BoneRecord(reader.buffer)(old(reader.offset))
    ensures r.Ok? ==> reader.offset == old(reader.offset) + 4
  {
    var length :- reader.GetInt16();
    var parent :- reader.GetInt8();
    var hasMesh :- reader.GetUint8();
    r := Ok(Bone(length := length, hasMesh := hasMesh != 0, parent := parent));
  }

  /** The skeleton: `n` bones read one after the other. */
  method ReadSkeleton(reader: Reader, n: nat) returns (r: Result<seq<Bone>>)
    modifies reader
    ensures Landed(r, reader.offset) == RecordsAt(BoneRecord(reader.buffer), old(reader.offset), 4, n)
  {
    var bones: seq<Bone> := [];
    ghost var run := RecordsAt(BoneRecord(reader.buffer), reader.offset, 4, n);
    PrecededNothing(run);
    for i := 0 to n
      invariant run == Preceded(bones, RecordsAt(BoneRecord(reader.buffer), reader.offset, 4, n - i))
    {
      ghost var rest := RecordsAt(BoneRecord(reader.buffer), reader.offset + 4, 4, n - i - 1);
      var bone :- ReadBone(reader);
      PrecededTwice(bones, [bone], rest);
      bones := bones + [bone];
    }
    RunDone(bones, BoneRecord(reader.buffer), reader.offset, 4);
    r := Ok(bones);
  }

  // ---------------------------------------------------------------- part data

  /** One vertex: three signed 16-bit coordinates, then two skipped bytes. */
  method ReadVertex(reader: Reader) returns (r: Result<Vertex>)
    modifies reader
    ensures r == VertexRecord(reader.buffer)(old(reader.offset))
    ensures r.Ok? ==> reader.offset == old(reader.offset) + 8
  {
    var x :- reader.GetInt16();
    var y :- reader.GetInt16();
    var z :- reader.GetInt16();
    reader.offset := reader.offset + 2;
    r := Ok(Vertex(x, y, z));
  }

  method ReadVertices(reader: Reader, n: nat) returns (r: Result<seq<Vertex>>)
    modifies reader
    ensures Landed(r, reader.offset) == RecordsAt(VertexRecord(reader.buffer), old(reader.offset), 8, n)
  {
    var vertices: seq<Vertex> := [];
    ghost var run := RecordsAt(VertexRecord(reader.buffer), reader.offset, 8, n);
    PrecededNothing(run);
    for i := 0 to n
      invariant run == Preceded(vertices, RecordsAt(VertexRecord(reader.buffer), reader.offset, 8, n - i))
    {
      ghost var rest := RecordsAt(VertexRecord(reader.buffer), reader.offset + 8, 8, n - i - 1);
      var vertex :- ReadVertex(reader);
      PrecededTwice(vertices, [vertex], rest);
      vertices := vertices + [vertex];
    }
    RunDone(vertices, VertexRecord(reader.buffer), reader.offset, 8);
    r := Ok(vertices);
  }

  /** One texture coordinate: `getBytes(2)`. */
  method ReadTextureCoord(reader: Reader) returns (r: Result<seq<byte>>)
    modifies reader
    ensures r == TextureCoordRecord(reader.buffer)(old(reader.offset))
    ensures r.Ok? ==> reader.offset == old(reader.offset) + 2
  {
    r := reader.GetBytes(2);
  }

  method ReadTextureCoords(reader: Reader, n: nat) returns (r: Result<seq<seq<byte>>>)
    modifies reader
    ensures Landed(r, reader.offset) == RecordsAt(TextureCoordRecord(reader.buffer), old(reader.offset), 2, n)
  {
    var coords: seq<seq<byte>> := [];
    ghost var run := RecordsAt(TextureCoordRecord(reader.buffer), reader.offset, 2, n);
    PrecededNothing(run);
    for i := 0 to n
      invariant run == Preceded(coords, RecordsAt(TextureCoordRecord(reader.buffer), reader.offset, 2, n - i))
    {
      ghost var rest := RecordsAt(TextureCoordRecord(reader.buffer), reader.offset + 2, 2, n - i - 1);
      var coord :- ReadTextureCoord(reader);
      PrecededTwice(coords, [coord], rest);
      coords := coords + [coord];
    }
    RunDone(coords, TextureCoordRecord(reader.buffer), reader.offset, 2);
    r := Ok(coords);
  }

  /** The colour of a four-byte group, whose fourth byte is padding. */
  function ColorOf(group: seq<byte>): Rgb
    requires |group| == 4
  {
    Rgb(group[0], group[1], group[2])
  }

  /** How many four-byte colour groups a record of kind `k` holds. */
  function ColorCount(k: PolygonKind): nat
  {
    if k.colored then CornerCount(k) else 1
  }

  /** The colour groups of a record: one per corner, or one in all. */
  method ReadColors(reader: Reader, k: PolygonKind) returns (r: Result<seq<Rgb>>)
    modifies reader
    ensures r.Ok? <==> Fits(old(reader.offset), 4 * ColorCount(k), |reader.buffer|)
    ensures r.Ok? ==> && |r.value| == ColorCount(k) && reader.offset == old(reader.offset) + 4 * ColorCount(k)
                      && forall i | 0 <= i < |r.value| :: r.value[i] == RgbAt(reader.buffer, old(reader.offset) + 4 * i)
    ensures r.Err? ==> r.error == RangeError
  {
    var a :- reader.GetBytes(4);
    if !k.colored {
      return Ok([ColorOf(a)]);
    }
    var b :- reader.GetBytes(4);
    var c :- reader.GetBytes(4);
    if !k.quad {
      return Ok([ColorOf(a), ColorOf(b), ColorOf(c)]);
    }
    var d :- reader.GetBytes(4);
    r := Ok([ColorOf(a), ColorOf(b), ColorOf(c), ColorOf(d)]);
  }

  /** The polygon the parser builds out of the groups it read: the vertex indices, the
      colours and the texture-coordinate indices, corner by corner. */
  function PolygonOf(k: PolygonKind, vertices: seq<byte>, colors: seq<Rgb>, textures: Option<seq<byte>>): (poly: Polygon)
    requires |vertices| == 4 && |colors| == ColorCount(k) && (textures.Some? ==> |textures.value| == 4)
    ensures |poly.corners| == CornerCount(k)
  {
    Polygon(
      corners := seq(CornerCount(k), c requires 0 <= c < CornerCount(k) =>
        Corner(
          vertexIndex := vertices[c],
          textureCoordIndex := if textures.Some? then Some(textures.value[c]) else None,
          color := if k.colored then Some(colors[c]) else None)),
      color := if k.colored then None else Some(colors[0]))
  }

  /** Built from the groups at `p`, the polygon is the record of kind `k` at `p`. */
  lemma PolygonOfAt(b: seq<byte>, p: int, k: PolygonKind, vertices: seq<byte>, colors: seq<Rgb>, textures: Option<seq<byte>>)
    requires Fits(p, PolygonSize(k), |b|) && vertices == b[p..p + 4]
    requires |colors| == ColorCount(k) && forall i | 0 <= i < |colors| :: colors[i] == RgbAt(b, p + 4 + 4 * i)
    requires textures.Some? <==> k.textured
    requires textures.Some? ==> textures.value == b[p + 4 + 4 * |colors|..p + 8 + 4 * |colors|]
    ensures PolygonOf(k, vertices, colors, textures) == PolygonAt(b, p, k)
  {
    var poly := PolygonAt(b, p, k);
    var mine := PolygonOf(k, vertices, colors, textures);
    forall c | 0 <= c < CornerCount(k)
      ensures mine.corners[c] == poly.corners[c]
    {
      assert poly.corners[c] == CornerAt(b, p, k, c);
    }
  }

  /** One polygon record of kind `k`, four bytes at a time: the vertex indices, the colours,
      then the texture-coordinate indices when the kind is textured. */
  method ReadPolygon(reader: Reader, k: PolygonKind) returns (r: Result<Polygon>)
    modifies reader
    ensures r == PolygonRecord(reader.buffer, k)(old(reader.offset))
    ensures r.Ok? ==> reader.offset == old(reader.offset) + PolygonSize(k)
  {
    ghost var p := reader.offset;
    var vertices :- reader.GetBytes(4);
    var colors :- ReadColors(reader, k);
    var textures: Option<seq<byte>> := None;
    if k.textured {
      var t :- reader.GetBytes(4);
      textures := Some(t);
    }
    r := Ok(PolygonOf(k, vertices, colors, textures));
    PolygonOfAt(reader.buffer, p, k, vertices, colors, textures);
  }

  /** The records of one polygon group. */
  method ReadPolygons(reader: Reader, g: PolygonGroup) returns (r: Result<seq<Polygon>>)
    modifies reader
    ensures Landed(r, reader.offset) == GroupAt(reader.buffer, old(reader.offset), g)
  {
    var polygons: seq<Polygon> := [];
    var size := PolygonSize(g.kind);
    ghost var read := PolygonRecord(reader.buffer, g.kind);
    ghost var run := RecordsAt(read, reader.offset, size, g.count);
    PrecededNothing(run);
    for i := 0 to g.count
      invariant run == Preceded(polygons, RecordsAt(read, reader.offset, size, g.count - i))
    {
      ghost var rest := RecordsAt(read, reader.offset + size, size, g.count - i - 1);
      var polygon :- ReadPolygon(reader, g.kind);
      PrecededTwice(polygons, [polygon], rest);
      polygons := polygons + [polygon];
    }
    RunDone(polygons, read, reader.offset, size);
    r := Ok(polygons);
  }

  /** The eight polygon groups of a part, one after the other in their fixed order. */
  method ReadPolygonGroups(reader: Reader, h: PartHeader) returns (r: Result<seq<seq<Polygon>>>)
    modifies reader
    ensures Landed(r, reader.offset) == GroupsAt(GroupRecord(reader.buffer), old(reader.offset), PolygonGroups(h))
  {
    var gs := PolygonGroups(h);
    var groups: seq<seq<Polygon>> := [];
    ghost var read := GroupRecord(reader.buffer);
    ghost var run := GroupsAt(read, reader.offset, gs);
    PrecededNothing(run);
    assert gs[0..] == gs;
    for i := 0 to |gs|
      invariant run == Preceded(groups, GroupsAt(read, reader.offset, gs[i..]))
    {
      assert gs[i..][0] == gs[i] && gs[i..][1..] == gs[i + 1..];
      var group :- ReadPolygons(reader, gs[i]);
      PrecededTwice(groups, [group], GroupsAt(read, reader.offset, gs[i + 1..]));
      groups := groups + [group];
    }
    assert groups + [] == groups;
    r := Ok(groups);
  }

  /** `parseModelPartData`: the vertices, the texture coordinates and the polygons, each at
      the offset the header gives. */
  method ParseModelPartData(reader: Reader, header: PartHeader) returns (r: Result<PartData>)
    modifies reader
    ensures r == PartDataAt(reader.buffer, header)
  {
    ghost var b := reader.buffer;
    ghost var vertexRun := RecordsAt(VertexRecord(b), VerticesStart(header), 8, header.numberOfVertices);
    ghost var coordRun := RecordsAt(TextureCoordRecord(b), TextureCoordsStart(header), 2, header.numberOfTextureCoords);
    ghost var polygonRun := GroupsAt(GroupRecord(b), PolygonsStart(header), PolygonGroups(header));
    assert PartDataAt(b, header) == PartDataOf(header, vertexRun, coordRun, polygonRun);
    reader.offset := header.offsetVertices;
    reader.offset := reader.offset + 4;
    var vertices :- ReadVertices(reader, header.numberOfVertices);
    assert vertexRun.Ok? && vertexRun.value.value == vertices;
    reader.offset := header.offsetVertices + header.offsetTextureCoords;
    var textureCoords :- ReadTextureCoords(reader, header.numberOfTextureCoords);
    assert coordRun.Ok? && coordRun.value.value == textureCoords;
    reader.offset := header.offsetVertices + header.offsetPolygon;
    var polygons :- ReadPolygonGroups(reader, header);
    assert polygonRun.Ok? && polygonRun.value.value == polygons;
    r := Ok(PartData(header.boneIndex, polygons, textureCoords, vertices));
  }

  /** One turn of the parts map: the header, then its data, with the offset kept across. */
  method ReadPart(reader: Reader) returns (r: Result<PartData>)
    modifies reader
    ensures r == PartRecord(reader.buffer)(old(reader.offset))
    ensures r.Ok? ==> reader.offset == old(reader.offset) + 32
  {
    var header :- ParseModelPartHeader(reader);
    var offset := reader.offset;
    r := ParseModelPartData(reader, header);
    reader.offset := offset;
  }

  method ReadParts(reader: Reader, n: nat) returns (r: Result<seq<PartData>>)
    modifies reader
    ensures Landed(r, reader.offset) == RecordsAt(PartRecord(reader.buffer), old(reader.offset), 32, n)
  {
    var parts: seq<PartData> := [];
    ghost var run := RecordsAt(PartRecord(reader.buffer), reader.offset, 32, n);
    PrecededNothing(run);
    for i := 0 to n
      invariant run == Preceded(parts, RecordsAt(PartRecord(reader.buffer), reader.offset, 32, n - i))
    {
      ghost var rest := RecordsAt(PartRecord(reader.buffer), reader.offset + 32, 32, n - i - 1);
      var part :- ReadPart(reader);
      PrecededTwice(parts, [part], rest);
      parts := parts + [part];
    }
    RunDone(parts, PartRecord(reader.buffer), reader.offset, 32);
    r := Ok(parts);
  }

  // ---------------------------------------------------------------- animations

  /** One channel: the flag byte, `getBytes(3)` twice, then one skipped byte. */
  method ReadChannel(reader: Reader) returns (r: Result<Channel>)
    modifies reader
    ensures r == ChannelRecord(reader.buffer)(old(reader.offset))
    ensures r.Ok? ==> reader.offset == old(reader.offset) + 8
  {
    var flag :- reader.GetUint8();
    var rotation :- reader.GetBytes(3);
    var translation :- reader.GetBytes(3);
    reader.offset := reader.offset + 1;
    r := Ok(Channel(flag, rotation, translation));
  }

  method ReadChannels(reader: Reader, n: nat) returns (r: Result<seq<Channel>>)
    modifies reader
    ensures Landed(r, reader.offset) == RecordsAt(ChannelRecord(reader.buffer), old(reader.offset), 8, n)
  {
    var channels: seq<Channel> := [];
    ghost var run := RecordsAt(ChannelRecord(reader.buffer), reader.offset, 8, n);
    PrecededNothing(run);
    for i := 0 to n
      invariant run == Preceded(channels, RecordsAt(ChannelRecord(reader.buffer), reader.offset, 8, n - i))
    {
      ghost var rest := RecordsAt(ChannelRecord(reader.buffer), reader.offset + 8, 8, n - i - 1);
      var channel :- ReadChannel(reader);
      PrecededTwice(channels, [channel], rest);
      channels := channels + [channel];
    }
    RunDone(channels, ChannelRecord(reader.buffer), reader.offset, 8);
    r := Ok(channels);
  }

  /** One rotation axis of a frame: the channel's byte, or, when its flag bit is set, the
      byte the cursor is moved to. */
  method ReadRotation(reader: Reader, h: AnimationHeader, c: Channel, axis: nat, frame: nat) returns (r: Result<int>)
    requires axis < 3
    modifies reader
    ensures r == RotationAt(reader.buffer, h, c, axis, frame)
  {
    var index := c.rotation[axis];
    if Bit(c.flag, RotationBit(axis)) == 0 {
      return Ok(index);
    }
    reader.offset := h.offsetData + h.offsetFramesRotation + index * h.numberOfFrames + frame;
    var v :- reader.GetUint8();
    r := Ok(v);
  }

  /** One translation axis of a frame: the per-frame value, the static value, or 0. */
  method ReadTranslation(reader: Reader, h: AnimationHeader, c: Channel, axis: nat, frame: nat) returns (r: Result<int>)
    requires axis < 3
    modifies reader
    ensures r == TranslationAt(reader.buffer, h, c, axis, frame)
  {
    var index := c.translation[axis];
    if Bit(c.flag, TranslationBit(axis)) == 1 {
      reader.offset := h.offsetData + h.offsetFramesTranslation + index * h.numberOfFrames * 2 + frame * 2;
      r := reader.GetInt16();
    } else if index != 0xFF {
      reader.offset := h.offsetData + h.offsetStaticTranslation + index * 2;
      r := reader.GetInt16();
    } else {
      r := Ok(0);
    }
  }

  /** One frame of one channel: the three rotations, then the three translations. */
  method ReadFrame(reader: Reader, h: AnimationHeader, c: Channel, frame: nat) returns (r: Result<Frame>)
    modifies reader
    ensures r == FrameAt(reader.buffer, h, c, frame)
  {
    var rx :- ReadRotation(reader, h, c, 0, frame);
    var ry :- ReadRotation(reader, h, c, 1, frame);
    var rz :- ReadRotation(reader, h, c, 2, frame);
    var tx :- ReadTranslation(reader, h, c, 0, frame);
    var ty :- ReadTranslation(reader, h, c, 1, frame);
    var tz :- ReadTranslation(reader, h, c, 2, frame);
    r := Ok(Frame([rx, ry, rz], [tx, ty, tz]));
  }

  /** The `numberOfFrames` frames of one channel, in order. */
  method ReadFrames(reader: Reader, h: AnimationHeader, c: Channel) returns (r: Result<seq<Frame>>)
    modifies reader
    ensures r == FramesFrom(reader.buffer, h, c, 0)
  {
    var frames: seq<Frame> := [];
    ghost var all := FramesFrom(reader.buffer, h, c, 0);
    PrefixedNothing(all);
    for frame := 0 to h.numberOfFrames
      invariant all == Prefixed(frames, FramesFrom(reader.buffer, h, c, frame))
    {
      var f :- ReadFrame(reader, h, c, frame);
      PrefixedTwice(frames, [f], FramesFrom(reader.buffer, h, c, frame + 1));
      frames := frames + [f];
    }
    assert frames + [] == frames;
    r := Ok(frames);
  }

  /** `parseModelAnimationsData`: the channels four bytes past `offsetData`, then the frames
      of each channel. */
  method ParseModelAnimationsData(reader: Reader, h: AnimationHeader) returns (r: Result<seq<seq<Frame>>>)
    modifies reader
    ensures r == AnimationDataAt(reader.buffer, h)
  {
    reader.offset := h.offsetData;
    reader.offset := reader.offset + 4;
    var channels :- ReadChannels(reader, h.numberOfChannels);
    var animations: seq<seq<Frame>> := [];
    ghost var all := ChannelFrames(reader.buffer, h, channels);
    PrefixedNothing(all);
    assert channels[0..] == channels;
    for i := 0 to |channels|
      invariant all == Prefixed(animations, ChannelFrames(reader.buffer, h, channels[i..]))
    {
      assert channels[i..][0] == channels[i] && channels[i..][1..] == channels[i + 1..];
      var frames :- ReadFrames(reader, h, channels[i]);
      PrefixedTwice(animations, [frames], ChannelFrames(reader.buffer, h, channels[i + 1..]));
      animations := animations + [frames];
    }
    assert animations + [] == animations;
    r := Ok(animations);
  }

  /** One turn of the animations map: the header, then its data, with the offset kept
      across. */
  method ReadAnimation(reader: Reader) returns (r: Result<Animation>)
    modifies reader
    ensures r == AnimationRecord(reader.buffer)(old(reader.offset))
    ensures r.Ok? ==> reader.offset == old(reader.offset) + 16
  {
    var header :- ParseModelAnimationsHeader(reader);
    var offset := reader.offset;
    var channels :- ParseModelAnimationsData(reader, header);
    reader.offset := offset;
    r := Ok(Animation(channels));
  }

  /** The animations map, over `read`, which decodes an animation wherever `AnimationAt`
      does; the trigger keeps the loop from unfolding each animation it passes over. */
  method ReadAnimations(reader: Reader, n: nat, ghost read: int -> Result<Animation>) returns (r: Result<seq<Animation>>)
    modifies reader
    requires forall p {:trigger AnimationAt(reader.buffer, p)} :: read(p) == AnimationAt(reader.buffer, p)
    ensures Landed(r, reader.offset) == RecordsAt(read, old(reader.offset), 16, n)
  {
    var animations: seq<Animation> := [];
    ghost var run := RecordsAt(read, reader.offset, 16, n);
    PrecededNothing(run);
    for i := 0 to n
      invariant run == Preceded(animations, RecordsAt(read, reader.offset, 16, n - i))
    {
      ghost var rest := RecordsAt(read, reader.offset + 16, 16, n - i - 1);
      var animation :- ReadAnimation(reader);
      PrecededTwice(animations, [animation], rest);
      animations := animations + [animation];
    }
    RunDone(animations, read, reader.offset, 16);
    r := Ok(animations);
  }

  // ---------------------------------------------------------------- the model

  /** `parseModel`: the header, the skeleton at its offset, then the parts and the
      animations, their headers read one after the other from the end of the skeleton. */
  method ParseModel(reader: Reader) returns (r: Result<Model>)
    modifies reader
    ensures r == ModelAt(reader.buffer, old(reader.offset))
  {
    var header :- ParseModelHeader(reader);
    reader.offset := header.offsetSkeleton;
    var skeleton :- ReadSkeleton(reader, header.numberOfBones);
    var parts :- ReadParts(reader, header.numberOfParts);
    var animations :- ReadAnimations(reader, header.numberOfAnimations, AnimationRecord(reader.buffer));
    r := Ok(Model(animations, parts, skeleton));
  }

  /** `parseBCX`: the file header, then the model at `offsetModels`. */
  method ParseBcx(reader: Reader) returns (r: Result<Model>)
    modifies reader
    ensures r == BcxAt(reader.buffer, old(reader.offset))
  {
    var header :- ParseBcxHeader(reader);
    reader.offset := header.offsetModels;
    r := ParseModel(reader);
  }
}
