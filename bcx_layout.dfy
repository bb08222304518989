/** The BCX model container of `ff7-model-viewer/model-viewer.js`, as functions of the buffer and
    the offsets the parser jumps to: the file header, the 32-byte model header, the skeleton, the
    part headers and their vertex, texture-coordinate and polygon tables, and the animation
    headers with their per-channel frame tables. Every multi-byte field is little-endian, and
    every read past the buffer is the RangeError of the underlying `DataView`. */
module BcxLayout {
  import opened Bytes
  import opened LeReader

  // ---------------------------------------------------------------- 31-bit offsets

  /** `reader.getUint32() & 0x7fffffff`: the offsets of the skeleton, of a part's vertices and
      of an animation's data keep only their low 31 bits. */
  function Mask31(u: nat): nat
  {
    u % 0x8000_0000
  }

  /** The masked offset of the 32-bit field at `p`. */
  function Offset31(b: seq<byte>, p: int): (v: nat)
    requires Fits(p, 4, |b|)
    ensures v < 0x8000_0000
  {
    Mask31(U32(b, p))
  }

  /** Bit 31 of the field is the top bit of its last byte: two buffers that differ only there
      give the same offset. */
  lemma {:induction false} Offset31IgnoresBit31(b: seq<byte>, b': seq<byte>, p: int)
    requires Fits(p, 4, |b|) && |b'| == |b|
    requires forall k :: 0 <= k < |b| && k != p + 3 ==> b'[k] == b[k]
    requires b'[p + 3] % 128 == b[p + 3] % 128
    ensures Offset31(b', p) == Offset31(b, p)
  {
    var low := b[p] as int + 256 * b[p + 1] as int + 0x1_0000 * b[p + 2] as int;
    assert U32(b, p) == low + 0x100_0000 * (b[p + 3] % 128) + 0x8000_0000 * (b[p + 3] / 128);
    assert U32(b', p) == low + 0x100_0000 * (b'[p + 3] % 128) + 0x8000_0000 * (b'[p + 3] / 128);
    var m := low + 0x100_0000 * (b[p + 3] % 128);
    assert 0 <= m < 0x8000_0000;
    DivModUnique(U32(b, p), 0x8000_0000, b[p + 3] / 128, m);
    DivModUnique(U32(b', p), 0x8000_0000, b'[p + 3] / 128, m);
  }

  // ---------------------------------------------------------------- file and model headers

  datatype BcxHeader = BcxHeader(fileSize: nat, offsetModels: nat)

  /** `parseBCXHeader`: two 32-bit fields. */
  function BcxHeaderAt(b: seq<byte>, p: int): (r: Result<Placed<BcxHeader>>)
    ensures r.Ok? <==> Fits(p, 8, |b|)
    ensures r.Ok? ==> r.value.end == p + 8 && r.value.value.offsetModels == LeUint(b[p + 4..p + 8])
    ensures r.Err? ==> r.error == RangeError
  {
    if !Fits(p, 8, |b|) then Err(RangeError)
    else
      FieldsAreLeUint(b, p + 4);
      Ok(Placed(BcxHeader(fileSize := U32(b, p), offsetModels := U32(b, p + 4)), p + 8))
  }

  datatype ModelHeader = ModelHeader(
    blank: seq<byte>,
    numberOfAnimations: nat,
    numberOfBones: nat,
    numberOfParts: nat,
    offsetAnimations: nat,
    offsetParts: nat,
    offsetSkeleton: nat,
    scale: nat,
    unknown: nat)

  /** `parseModelHeader`: a 16-bit marker, the three counts, 17 unused bytes, the scale, two
      16-bit offsets and the masked offset of the skeleton. */
  function ModelHeaderAt(b: seq<byte>, p: int): (r: Result<Placed<ModelHeader>>)
    ensures r.Ok? <==> Fits(p, 32, |b|)
    ensures r.Ok? ==> r.value.end == p + 32 && r.value.value.offsetSkeleton < 0x8000_0000
    ensures r.Ok? ==> (r.value.value.numberOfBones == b[p + 2] && r.value.value.numberOfParts == b[p + 3]
                       && r.value.value.numberOfAnimations == b[p + 4])
    ensures r.Err? ==> r.error == RangeError
  {
    if !Fits(p, 32, |b|) then Err(RangeError)
    else
      Ok(Placed(ModelHeader(
        blank := b[p + 5..p + 22],
        numberOfAnimations := b[p + 4],
        numberOfBones := b[p + 2],
        numberOfParts := b[p + 3],
        offsetAnimations := U16(b, p + 26),
        offsetParts := U16(b, p + 24),
        offsetSkeleton := Offset31(b, p + 28),
        scale := U16(b, p + 22),
        unknown := U16(b, p)), p + 32))
  }

  /** Bit 31 of a masked offset never affects a header: flipping the top bit of the last byte
      of the skeleton offset (byte 31 of the model header), of the vertex offset (byte 27 of a
      part header) or of the data offset (byte 15 of an animation header) parses to the same
      header. */
  lemma {:induction false} HeadersIgnoreBit31(b: seq<byte>, b': seq<byte>, p: int, q: int)
    requires |b'| == |b| && 0 <= q < |b|
    requires forall k :: 0 <= k < |b| && k != q ==> b'[k] == b[k]
    requires b'[q] % 128 == b[q] % 128
    ensures q == p + 31 ==> ModelHeaderAt(b', p) == ModelHeaderAt(b, p)
    ensures q == p + 27 ==> PartHeaderAt(b', p) == PartHeaderAt(b, p)
    ensures q == p + 15 ==> AnimationHeaderAt(b', p) == AnimationHeaderAt(b, p)
  {
    if q == p + 31 && Fits(p, 32, |b|) {
      Offset31IgnoresBit31(b, b', p + 28);
      assert b'[p + 5..p + 22] == b[p + 5..p + 22];
    }
    if q == p + 27 && Fits(p, 32, |b|) {
      Offset31IgnoresBit31(b, b', p + 24);
    }
    if q == p + 15 && Fits(p, 16, |b|) {
      Offset31IgnoresBit31(b, b', p + 12);
    }
  }

  // ---------------------------------------------------------------- skeleton

  datatype Bone = Bone(length: int, hasMesh: bool, parent: int)

  /** One bone: the signed 16-bit length, the signed 8-bit parent and the has-mesh byte. */
  function BoneAt(b: seq<byte>, p: int): (bone: Bone)
    requires Fits(p, 4, |b|)
    ensures -32768 <= bone.length < 32768 && -128 <= bone.parent < 128
    ensures bone.hasMesh <==> b[p + 3] != 0
  {
    Bone(length := Int16(U16(b, p)), hasMesh := b[p + 3] != 0, parent := Int8(b[p + 2]))
  }

  /** A bone read at an offset, failing outside the buffer. */
  function BoneRecord(b: seq<byte>): int -> Result<Bone>
  {
    o => if Fits(o, 4, |b|) then Ok(BoneAt(b, o)) else Err(RangeError)
  }

  // ---------------------------------------------------------------- parts

  datatype PartHeader = PartHeader(
    boneIndex: nat,
    bufferSize: nat,
    numberOfBytesForControl: nat,
    numberOfBytesForFlags: nat,
    numberOfColorQuads: nat,
    numberOfColorTexturedQuads: nat,
    numberOfColorTexturedTriangles: nat,
    numberOfColorTriangles: nat,
    numberOfMonochromeQuads: nat,
    numberOfMonochromeTexturedQuads: nat,
    numberOfMonochromeTexturedTriangles: nat,
    numberOfMonochromeTriangles: nat,
    numberOfTextureCoords: nat,
    numberOfVertices: nat,
    offsetControl: nat,
    offsetFlags: nat,
    offsetPolygon: nat,
    offsetPrec: nat,
    offsetTextureCoords: nat,
    offsetVertices: nat,
    unknown: nat)

  /** `parseModelPartHeader`: fourteen bytes, five 16-bit fields, the masked offset of the
      vertices and a last 32-bit field. */
  function PartHeaderAt(b: seq<byte>, p: int): (r: Result<Placed<PartHeader>>)
    ensures r.Ok? <==> Fits(p, 32, |b|)
    ensures r.Ok? ==> r.value.end == p + 32 && r.value.value.offsetVertices < 0x8000_0000
    ensures r.Err? ==> r.error == RangeError
  {
    if !Fits(p, 32, |b|) then Err(RangeError)
    else
      Ok(Placed(PartHeader(
        boneIndex := b[p + 1],
        bufferSize := U16(b, p + 22),
        numberOfBytesForControl := b[p + 13],
        numberOfBytesForFlags := b[p + 12],
        numberOfColorQuads := b[p + 11],
        numberOfColorTexturedQuads := b[p + 4],
        numberOfColorTexturedTriangles := b[p + 5],
        numberOfColorTriangles := b[p + 10],
        numberOfMonochromeQuads := b[p + 9],
        numberOfMonochromeTexturedQuads := b[p + 6],
        numberOfMonochromeTexturedTriangles := b[p + 7],
        numberOfMonochromeTriangles := b[p + 8],
        numberOfTextureCoords := b[p + 3],
        numberOfVertices := b[p + 2],
        offsetControl := U16(b, p + 20),
        offsetFlags := U16(b, p + 18),
        offsetPolygon := U16(b, p + 14),
        offsetPrec := U32(b, p + 28),
        offsetTextureCoords := U16(b, p + 16),
        offsetVertices := Offset31(b, p + 24),
        unknown := b[p]), p + 32))
  }

  /** A vertex: three signed 16-bit coordinates; two unused bytes follow. */
  datatype Vertex = Vertex(x: int, y: int, z: int)

  function VertexAt(b: seq<byte>, p: int): (v: Vertex)
    requires Fits(p, 6, |b|)
    ensures -32768 <= v.x < 32768 && -32768 <= v.y < 32768 && -32768 <= v.z < 32768
  {
    Vertex(Int16(U16(b, p)), Int16(U16(b, p + 2)), Int16(U16(b, p + 4)))
  }

  function VertexRecord(b: seq<byte>): int -> Result<Vertex>
  {
    o => if Fits(o, 6, |b|) then Ok(VertexAt(b, o)) else Err(RangeError)
  }

  /** A texture coordinate: the pair of bytes `getBytes(2)` returns. */
  function TextureCoordRecord(b: seq<byte>): int -> Result<seq<byte>>
  {
    o => if Fits(o, 2, |b|) then Ok(b[o..o + 2]) else Err(RangeError)
  }

  /** The eight polygon records: quad or triangle, textured or not, one colour per corner
      ("color") or one for the whole polygon ("monochrome"). */
  datatype PolygonKind = PolygonKind(quad: bool, textured: bool, colored: bool)

  const COLOR_TEXTURED_QUAD := PolygonKind(quad := true, textured := true, colored := true)
  const COLOR_TEXTURED_TRIANGLE := PolygonKind(quad := false, textured := true, colored := true)
  const MONOCHROME_TEXTURED_QUAD := PolygonKind(quad := true, textured := true, colored := false)
  const MONOCHROME_TEXTURED_TRIANGLE := PolygonKind(quad := false, textured := true, colored := false)
  const MONOCHROME_TRIANGLE := PolygonKind(quad := false, textured := false, colored := false)
  const MONOCHROME_QUAD := PolygonKind(quad := true, textured := false, colored := false)
  const COLOR_TRIANGLE := PolygonKind(quad := false, textured := false, colored := true)
  const COLOR_QUAD := PolygonKind(quad := true, textured := false, colored := true)

  /** The number of polygon groups of a part. */
  const GROUP_COUNT := 8

  /** A run of polygon records of one kind, as many as the header counts. */
  datatype PolygonGroup = PolygonGroup(kind: PolygonKind, count: nat)

  /** The part's eight groups, in the order in which the header counts them and the data
      stores them. */
  function PolygonGroups(h: PartHeader): (gs: seq<PolygonGroup>)
    ensures |gs| == GROUP_COUNT
  {
    [PolygonGroup(COLOR_TEXTURED_QUAD, h.numberOfColorTexturedQuads),
     PolygonGroup(COLOR_TEXTURED_TRIANGLE, h.numberOfColorTexturedTriangles),
     PolygonGroup(MONOCHROME_TEXTURED_QUAD, h.numberOfMonochromeTexturedQuads),
     PolygonGroup(MONOCHROME_TEXTURED_TRIANGLE, h.numberOfMonochromeTexturedTriangles),
     PolygonGroup(MONOCHROME_TRIANGLE, h.numberOfMonochromeTriangles),
     PolygonGroup(MONOCHROME_QUAD, h.numberOfMonochromeQuads),
     PolygonGroup(COLOR_TRIANGLE, h.numberOfColorTriangles),
     PolygonGroup(COLOR_QUAD, h.numberOfColorQuads)]
  }

  /** The place of a kind among the groups of a part. */
  function GroupIndex(kind: PolygonKind): (k: nat)
    ensures k < GROUP_COUNT
  {
    if kind.colored then (if kind.textured then (if kind.quad then 0 else 1) else (if kind.quad then 7 else 6))
    else (if kind.textured then (if kind.quad then 2 else 3) else (if kind.quad then 5 else 4))
  }

  /** Every one of the eight kinds has exactly one group: `GroupIndex` finds a kind's group, and
      the group at each place has the kind that maps back to it. */
  lemma PolygonGroupsCoverKinds(h: PartHeader)
    ensures forall kind: PolygonKind :: PolygonGroups(h)[GroupIndex(kind)].kind == kind
    ensures forall k | 0 <= k < GROUP_COUNT :: GroupIndex(PolygonGroups(h)[k].kind) == k
  {
  }

  function CornerCount(k: PolygonKind): nat
  {
    if k.quad then 4 else 3
  }

  /** A record is a group of four vertex indices, then four bytes per colour (one per corner or
      one in all), then four texture-coordinate indices when textured. */
  function PolygonSize(k: PolygonKind): nat
  {
    4 + (if k.colored then 4 * CornerCount(k) else 4) + (if k.textured then 4 else 0)
  }

  /** The record sizes, kind by kind: 24, 20, 12, 12, 8, 8, 16 and 20 bytes. */
  lemma PolygonSizes()
    ensures PolygonSize(COLOR_TEXTURED_QUAD) == 24 && PolygonSize(COLOR_TEXTURED_TRIANGLE) == 20
    ensures PolygonSize(MONOCHROME_TEXTURED_QUAD) == 12 && PolygonSize(MONOCHROME_TEXTURED_TRIANGLE) == 12
    ensures PolygonSize(MONOCHROME_TRIANGLE) == 8 && PolygonSize(MONOCHROME_QUAD) == 8
    ensures PolygonSize(COLOR_TRIANGLE) == 16 && PolygonSize(COLOR_QUAD) == 20
  {
  }

  datatype Rgb = Rgb(r: byte, g: byte, b: byte)

  /** One corner: its vertex index, and its texture-coordinate index and colour when the
      record carries them. */
  datatype Corner = Corner(vertexIndex: byte, textureCoordIndex: Option<byte>, color: Option<Rgb>)

  /** A polygon: its corners, and the colour of a monochrome one. */
  datatype Polygon = Polygon(corners: seq<Corner>, color: Option<Rgb>)

  /** The three colour bytes of a four-byte group; the fourth is padding. */
  function RgbAt(b: seq<byte>, p: int): Rgb
    requires Fits(p, 3, |b|)
  {
    Rgb(b[p], b[p + 1], b[p + 2])
  }

  /** Corner `c` of the record of kind `k` at `p`. */
  function CornerAt(b: seq<byte>, p: int, k: PolygonKind, c: nat): Corner
    requires Fits(p, PolygonSize(k), |b|) && c < CornerCount(k)
  {
    var texture := p + 4 + (if k.colored then 4 * CornerCount(k) else 4);
    Corner(
      vertexIndex := b[p + c],
      textureCoordIndex := if k.textured then Some(b[texture + c]) else None,
      color := if k.colored then Some(RgbAt(b, p + 4 + 4 * c)) else None)
  }

  function PolygonAt(b: seq<byte>, p: int, k: PolygonKind): (poly: Polygon)
    requires Fits(p, PolygonSize(k), |b|)
    ensures |poly.corners| == CornerCount(k)
    ensures poly.color.Some? <==> !k.colored
  {
    Polygon(
      corners := if k.quad then [CornerAt(b, p, k, 0), CornerAt(b, p, k, 1), CornerAt(b, p, k, 2), CornerAt(b, p, k, 3)]
                 else [CornerAt(b, p, k, 0), CornerAt(b, p, k, 1), CornerAt(b, p, k, 2)],
      color := if k.colored then None else Some(RgbAt(b, p + 4)))
  }

  function PolygonRecord(b: seq<byte>, k: PolygonKind): int -> Result<Polygon>
  {
    o => if Fits(o, PolygonSize(k), |b|) then Ok(PolygonAt(b, o, k)) else Err(RangeError)
  }

  /** The bytes a group of records occupies. */
  function GroupBytes(g: PolygonGroup): nat
  {
    PolygonSize(g.kind) * g.count
  }

  /** The bytes a sequence of groups occupies. */
  function GroupsBytes(gs: seq<PolygonGroup>): nat
  {
    if gs == [] then 0 else GroupBytes(gs[0]) + GroupsBytes(gs[1..])
  }

  /** The bytes of a sequence of groups are those of all but the last, plus the last. */
  lemma {:induction false} GroupsBytesSnoc(gs: seq<PolygonGroup>)
    requires gs != []
    ensures GroupsBytes(gs) == GroupsBytes(gs[..|gs| - 1]) + GroupBytes(gs[|gs| - 1])
    decreases |gs|
  {
    if |gs| > 1 {
      GroupsBytesSnoc(gs[1..]);
      assert gs[1..][..|gs[1..]| - 1] == gs[..|gs| - 1][1..];
    } else {
      assert gs[1..] == [] && gs[..0] == [];
    }
  }

  /** All eight groups of a part weigh their counts by the record sizes. */
  lemma GroupsBytesTotal(h: PartHeader)
    ensures GroupsBytes(PolygonGroups(h)) == 24 * h.numberOfColorTexturedQuads + 20 * h.numberOfColorTexturedTriangles
                                           + 12 * h.numberOfMonochromeTexturedQuads + 12 * h.numberOfMonochromeTexturedTriangles
                                           + 8 * h.numberOfMonochromeTriangles + 8 * h.numberOfMonochromeQuads
                                           + 16 * h.numberOfColorTriangles + 20 * h.numberOfColorQuads
  {
    PolygonSizes();
    var gs := PolygonGroups(h);
    assert gs[8..] == [];
    assert GroupsBytes(gs[7..]) == GroupBytes(gs[7]) by { assert gs[7..][1..] == gs[8..]; }
    assert GroupsBytes(gs[6..]) == GroupBytes(gs[6]) + GroupsBytes(gs[7..]) by { assert gs[6..][1..] == gs[7..]; }
    assert GroupsBytes(gs[5..]) == GroupBytes(gs[5]) + GroupsBytes(gs[6..]) by { assert gs[5..][1..] == gs[6..]; }
    assert GroupsBytes(gs[4..]) == GroupBytes(gs[4]) + GroupsBytes(gs[5..]) by { assert gs[4..][1..] == gs[5..]; }
    assert GroupsBytes(gs[3..]) == GroupBytes(gs[3]) + GroupsBytes(gs[4..]) by { assert gs[3..][1..] == gs[4..]; }
    assert GroupsBytes(gs[2..]) == GroupBytes(gs[2]) + GroupsBytes(gs[3..]) by { assert gs[2..][1..] == gs[3..]; }
    assert GroupsBytes(gs[1..]) == GroupBytes(gs[1]) + GroupsBytes(gs[2..]) by { assert gs[1..][1..] == gs[2..]; }
  }

  /** The records of one group, from `p`. */
  function GroupAt(b: seq<byte>, p: int, g: PolygonGroup): Result<Placed<seq<Polygon>>>
  {
    RecordsAt(PolygonRecord(b, g.kind), p, PolygonSize(g.kind), g.count)
  }

  function GroupRecord(b: seq<byte>): (int, PolygonGroup) -> Result<Placed<seq<Polygon>>>
  {
    (o, g) => GroupAt(b, o, g)
  }

  /** The groups `gs`, each read by `read` where the one before it ends. */
  function GroupsAt<T>(read: (int, PolygonGroup) -> Result<Placed<T>>, p: int, gs: seq<PolygonGroup>): Result<Placed<seq<T>>>
    decreases |gs|
  {
    if gs == [] then Ok(Placed([], p))
    else
      match read(p, gs[0])
      case Err(e) => Err(e)
      case Ok(group) => Preceded([group.value], GroupsAt(read, group.end, gs[1..]))
  }

  /** A group that is read ends as many bytes past its start as its records take. */
  lemma GroupRecordEnds(b: seq<byte>)
    ensures forall o, g :: GroupRecord(b)(o, g).Ok? ==> GroupRecord(b)(o, g).value.end == o + GroupBytes(g)
  {
    forall o, g | GroupRecord(b)(o, g).Ok?
      ensures GroupRecord(b)(o, g).value.end == o + GroupBytes(g)
    {
      RecordsEnd(PolygonRecord(b, g.kind), o, PolygonSize(g.kind), g.count);
    }
  }

  /** The groups before group `j` take the bytes of the first one and of those between it and
      group `j`. */
  lemma GroupsBytesShift(gs: seq<PolygonGroup>, j: nat)
    requires 0 < j <= |gs|
    ensures GroupsBytes(gs[..j]) == GroupBytes(gs[0]) + GroupsBytes(gs[1..][..j - 1])
  {
    assert gs[..j][0] == gs[0] && gs[..j][1..] == gs[1..][..j - 1];
  }

  /** A sequence of groups that is read holds one result per group, group `j` being read past
      the bytes of the groups before it. */
  lemma GroupsPlaced<T>(read: (int, PolygonGroup) -> Result<Placed<T>>, p: int, gs: seq<PolygonGroup>)
    requires forall o, g :: read(o, g).Ok? ==> read(o, g).value.end == o + GroupBytes(g)
    requires GroupsAt(read, p, gs).Ok?
    ensures |GroupsAt(read, p, gs).value.value| == |gs|
    ensures forall j | 0 <= j < |gs| ::
      read(p + GroupsBytes(gs[..j]), gs[j]) == Ok(Placed(GroupsAt(read, p, gs).value.value[j], p + GroupsBytes(gs[..j + 1])))
  {
    GroupsEnd(read, p, gs);
    forall j | 0 <= j < |gs|
      ensures read(p + GroupsBytes(gs[..j]), gs[j]) == Ok(Placed(GroupsAt(read, p, gs).value.value[j], p + GroupsBytes(gs[..j + 1])))
    {
      GroupPlaced(read, p, gs, j);
    }
  }

  /** Group `j` of a sequence that is read is read past the bytes of the groups before it. */
  lemma {:induction false} GroupPlaced<T>(read: (int, PolygonGroup) -> Result<Placed<T>>, p: int, gs: seq<PolygonGroup>, j: nat)
    requires forall o, g :: read(o, g).Ok? ==> read(o, g).value.end == o + GroupBytes(g)
    requires GroupsAt(read, p, gs).Ok? && j < |gs|
    ensures j < |GroupsAt(read, p, gs).value.value|
    ensures read(p + GroupsBytes(gs[..j]), gs[j]) == Ok(Placed(GroupsAt(read, p, gs).value.value[j], p + GroupsBytes(gs[..j + 1])))
    decreases j
  {
    GroupsEnd(read, p, gs);
    var first := read(p, gs[0]).value;
    var q := p + GroupBytes(gs[0]);
    var tail := gs[1..];
    assert GroupsAt(read, p, gs) == Preceded([first.value], GroupsAt(read, q, tail));
    var rest := GroupsAt(read, q, tail).value;
    GroupsBytesShift(gs, j + 1);
    if j == 0 {
      assert gs[..0] == [] && tail[..0] == [];
    } else {
      GroupPlaced(read, q, tail, j - 1);
      GroupsBytesShift(gs, j);
      assert gs[j] == tail[j - 1] && ([first.value] + rest.value)[j] == rest.value[j - 1];
    }
  }

  /** A sequence of groups that is read holds one result per group and ends past the bytes of
      all of them. */
  lemma {:induction false} GroupsEnd<T>(read: (int, PolygonGroup) -> Result<Placed<T>>, p: int, gs: seq<PolygonGroup>)
    requires forall o, g :: read(o, g).Ok? ==> read(o, g).value.end == o + GroupBytes(g)
    requires GroupsAt(read, p, gs).Ok?
    ensures |GroupsAt(read, p, gs).value.value| == |gs|
    ensures GroupsAt(read, p, gs).value.end == p + GroupsBytes(gs)
    decreases |gs|
  {
    if gs != [] {
      GroupsEnd(read, p + GroupBytes(gs[0]), gs[1..]);
    }
  }

  /** A sequence of groups is read when each group is, past the bytes of the groups before it. */
  lemma {:induction false} GroupsSucceed<T>(read: (int, PolygonGroup) -> Result<Placed<T>>, p: int, gs: seq<PolygonGroup>)
    requires forall o, g :: read(o, g).Ok? ==> read(o, g).value.end == o + GroupBytes(g)
    requires forall j | 0 <= j < |gs| :: read(p + GroupsBytes(gs[..j]), gs[j]).Ok?
    ensures GroupsAt(read, p, gs).Ok?
    decreases |gs|
  {
    if gs != [] {
      assert gs[..0] == [];
      var q := p + GroupBytes(gs[0]);
      var tail := gs[1..];
      forall j | 0 <= j < |tail|
        ensures read(q + GroupsBytes(tail[..j]), tail[j]).Ok?
      {
        GroupsBytesShift(gs, j + 1);
        assert tail[j] == gs[j + 1];
      }
      GroupsSucceed(read, q, tail);
    }
  }

  /** The groups succeed exactly when each of them does, past the bytes of the groups before
      it. */
  lemma GroupsLayout<T>(read: (int, PolygonGroup) -> Result<Placed<T>>, p: int, gs: seq<PolygonGroup>)
    requires forall o, g :: read(o, g).Ok? ==> read(o, g).value.end == o + GroupBytes(g)
    ensures GroupsAt(read, p, gs).Ok? <==> forall j | 0 <= j < |gs| :: read(p + GroupsBytes(gs[..j]), gs[j]).Ok?
  {
    if GroupsAt(read, p, gs).Ok? {
      GroupsPlaced(read, p, gs);
      forall j | 0 <= j < |gs|
        ensures read(p + GroupsBytes(gs[..j]), gs[j]).Ok?
      {
        assert read(p + GroupsBytes(gs[..j]), gs[j])
            == Ok(Placed(GroupsAt(read, p, gs).value.value[j], p + GroupsBytes(gs[..j + 1])));
      }
    } else if forall j | 0 <= j < |gs| :: read(p + GroupsBytes(gs[..j]), gs[j]).Ok? {
      GroupsSucceed(read, p, gs);
    }
  }

  /** Polygon `i` of a group read at `p` is the record of the group's kind `PolygonSize` times
      `i` bytes past `p`; the group holds as many records as it counts. */
  lemma GroupLayout(b: seq<byte>, p: int, g: PolygonGroup)
    requires GroupAt(b, p, g).Ok?
    ensures var group := GroupAt(b, p, g).value;
      && group.end == p + GroupBytes(g) && |group.value| == g.count
      && forall i | 0 <= i < g.count ::
           && Fits(p + PolygonSize(g.kind) * i, PolygonSize(g.kind), |b|)
           && group.value[i] == PolygonAt(b, p + PolygonSize(g.kind) * i, g.kind)
  {
    RecordsEnd(PolygonRecord(b, g.kind), p, PolygonSize(g.kind), g.count);
    forall i | 0 <= i < g.count
      ensures Fits(p + PolygonSize(g.kind) * i, PolygonSize(g.kind), |b|)
      ensures GroupAt(b, p, g).value.value[i] == PolygonAt(b, p + PolygonSize(g.kind) * i, g.kind)
    {
      RecordAt(PolygonRecord(b, g.kind), p, PolygonSize(g.kind), g.count, i);
    }
  }

  datatype PartData = PartData(
    boneIndex: nat,
    polygons: seq<seq<Polygon>>,
    textureCoords: seq<seq<byte>>,
    vertices: seq<Vertex>)

  /** Where `parseModelPartData` reads: the vertices four bytes past `offsetVertices`, the
      texture coordinates and the polygons at offsets relative to `offsetVertices`. */
  function VerticesStart(h: PartHeader): nat { h.offsetVertices + 4 }
  function TextureCoordsStart(h: PartHeader): nat { h.offsetVertices + h.offsetTextureCoords }
  function PolygonsStart(h: PartHeader): nat { h.offsetVertices + h.offsetPolygon }

  /** `parseModelPartData`: the part's vertices (eight bytes apart), texture coordinates (two
      bytes each) and its eight polygon groups. */
  function PartDataAt(b: seq<byte>, h: PartHeader): (r: Result<PartData>)
  {
    PartDataFrom(b, h, GroupRecord(b))
  }

  /** `parseModelPartData` with the reading of one polygon group given as `group`. */
  function PartDataFrom(b: seq<byte>, h: PartHeader, group: (int, PolygonGroup) -> Result<Placed<seq<Polygon>>>): (r: Result<PartData>)
  {
    PartDataOf(h,
      RecordsAt(VertexRecord(b), VerticesStart(h), 8, h.numberOfVertices),
      RecordsAt(TextureCoordRecord(b), TextureCoordsStart(h), 2, h.numberOfTextureCoords),
      GroupsAt(group, PolygonsStart(h), PolygonGroups(h)))
  }

  /** A part's data out of its three runs, the first one that fails failing it. */
  function PartDataOf(h: PartHeader, vertices: Result<Placed<seq<Vertex>>>, textureCoords: Result<Placed<seq<seq<byte>>>>,
                      polygons: Result<Placed<seq<seq<Polygon>>>>): Result<PartData>
  {
    match vertices
    case Err(e) => Err(e)
    case Ok(vs) =>
      match textureCoords
      case Err(e) => Err(e)
      case Ok(ts) =>
        match polygons
        case Err(e) => Err(e)
        case Ok(ps) => Ok(PartData(h.boneIndex, ps.value, ts.value, vs.value))
  }

  /** A part's data that is read is made of the three runs it reads. */
  lemma PartDataSections(b: seq<byte>, h: PartHeader, group: (int, PolygonGroup) -> Result<Placed<seq<Polygon>>>)
    requires PartDataFrom(b, h, group).Ok?
    ensures RecordsAt(VertexRecord(b), VerticesStart(h), 8, h.numberOfVertices).Ok?
    ensures RecordsAt(TextureCoordRecord(b), TextureCoordsStart(h), 2, h.numberOfTextureCoords).Ok?
    ensures GroupsAt(group, PolygonsStart(h), PolygonGroups(h)).Ok?
    ensures PartDataFrom(b, h, group).value == PartData(h.boneIndex,
      GroupsAt(group, PolygonsStart(h), PolygonGroups(h)).value.value,
      RecordsAt(TextureCoordRecord(b), TextureCoordsStart(h), 2, h.numberOfTextureCoords).value.value,
      RecordsAt(VertexRecord(b), VerticesStart(h), 8, h.numberOfVertices).value.value)
  {
  }

  /** Vertex `i` of a part is read at `offsetVertices + 4 + 8 * i`. */
  lemma PartVerticesLayout(b: seq<byte>, h: PartHeader, group: (int, PolygonGroup) -> Result<Placed<seq<Polygon>>>)
    requires PartDataFrom(b, h, group).Ok?
    ensures var d := PartDataFrom(b, h, group).value;
      && |d.vertices| == h.numberOfVertices
      && forall i | 0 <= i < h.numberOfVertices ::
           Fits(VerticesStart(h) + 8 * i, 6, |b|) && d.vertices[i] == VertexAt(b, VerticesStart(h) + 8 * i)
  {
    PartDataSections(b, h, group);
    VerticesLayout(b, VerticesStart(h), h.numberOfVertices);
  }

  /** Texture coordinate `i` of a part is the pair of bytes at
      `offsetVertices + offsetTextureCoords + 2 * i`. */
  lemma PartTextureCoordsLayout(b: seq<byte>, h: PartHeader, group: (int, PolygonGroup) -> Result<Placed<seq<Polygon>>>)
    requires PartDataFrom(b, h, group).Ok?
    ensures var d := PartDataFrom(b, h, group).value;
      && |d.textureCoords| == h.numberOfTextureCoords
      && forall i | 0 <= i < h.numberOfTextureCoords ::
           && Fits(TextureCoordsStart(h) + 2 * i, 2, |b|)
           && d.textureCoords[i] == b[TextureCoordsStart(h) + 2 * i..TextureCoordsStart(h) + 2 * i + 2]
  {
    PartDataSections(b, h, group);
    TextureCoordsLayout(b, TextureCoordsStart(h), h.numberOfTextureCoords);
  }

  /** Group `j` of a part's polygons is read at `offsetVertices + offsetPolygon`, past the
      groups before it. */
  lemma PartPolygonsLayout(b: seq<byte>, h: PartHeader, group: (int, PolygonGroup) -> Result<Placed<seq<Polygon>>>)
    requires forall o, g :: group(o, g).Ok? ==> group(o, g).value.end == o + GroupBytes(g)
    requires PartDataFrom(b, h, group).Ok?
    ensures var d := PartDataFrom(b, h, group).value;
      && |d.polygons| == GROUP_COUNT
      && forall j | 0 <= j < GROUP_COUNT ::
           group(PolygonsStart(h) + GroupsBytes(PolygonGroups(h)[..j]), PolygonGroups(h)[j])
             == Ok(Placed(d.polygons[j], PolygonsStart(h) + GroupsBytes(PolygonGroups(h)[..j + 1])))
  {
    PartDataSections(b, h, group);
    GroupsPlaced(group, PolygonsStart(h), PolygonGroups(h));
  }

  /** Vertex `i` of a run of vertices is the one eight bytes times `i` past its start. */
  lemma VerticesLayout(b: seq<byte>, start: int, n: nat)
    requires RecordsAt(VertexRecord(b), start, 8, n).Ok?
    ensures var vertices := RecordsAt(VertexRecord(b), start, 8, n).value.value;
      && |vertices| == n
      && forall i | 0 <= i < n :: Fits(start + 8 * i, 6, |b|) && vertices[i] == VertexAt(b, start + 8 * i)
  {
    RecordsEnd(VertexRecord(b), start, 8, n);
    forall i | 0 <= i < n
      ensures Fits(start + 8 * i, 6, |b|) && RecordsAt(VertexRecord(b), start, 8, n).value.value[i] == VertexAt(b, start + 8 * i)
    {
      RecordAt(VertexRecord(b), start, 8, n, i);
    }
  }

  /** Texture coordinate `i` of a run is the pair of bytes two times `i` past its start. */
  lemma TextureCoordsLayout(b: seq<byte>, start: int, n: nat)
    requires RecordsAt(TextureCoordRecord(b), start, 2, n).Ok?
    ensures var coords := RecordsAt(TextureCoordRecord(b), start, 2, n).value.value;
      && |coords| == n
      && forall i | 0 <= i < n :: Fits(start + 2 * i, 2, |b|) && coords[i] == b[start + 2 * i..start + 2 * i + 2]
  {
    RecordsEnd(TextureCoordRecord(b), start, 2, n);
    forall i | 0 <= i < n
      ensures Fits(start + 2 * i, 2, |b|)
      ensures RecordsAt(TextureCoordRecord(b), start, 2, n).value.value[i] == b[start + 2 * i..start + 2 * i + 2]
    {
      RecordAt(TextureCoordRecord(b), start, 2, n, i);
    }
  }

  /** One turn of the `parts` map of `parseModel`: the part header at `o`, then, out of line,
      its data. */
  function PartAt(b: seq<byte>, o: int): (r: Result<PartData>)
  {
    match PartHeaderAt(b, o)
    case Err(e) => Err(e)
    case Ok(header) => PartDataAt(b, header.value)
  }

  function PartRecord(b: seq<byte>): int -> Result<PartData>
  {
    o => PartAt(b, o)
  }

  // ---------------------------------------------------------------- animations

  datatype AnimationHeader = AnimationHeader(
    numberOfChannels: nat,
    numberOfFrames: nat,
    numberOfFramesRotation: nat,
    numberOfFramesTranslation: nat,
    numberOfStaticTranslation: nat,
    offsetData: nat,
    offsetFramesRotation: nat,
    offsetFramesTranslation: nat,
    offsetStaticTranslation: nat)

  /** `parseModelAnimationsHeader`: the frame count, four byte counts, three 16-bit offsets and
      the masked offset of the data. */
  function AnimationHeaderAt(b: seq<byte>, p: int): (r: Result<Placed<AnimationHeader>>)
    ensures r.Ok? <==> Fits(p, 16, |b|)
    ensures r.Ok? ==> r.value.end == p + 16 && r.value.value.offsetData < 0x8000_0000
    ensures r.Err? ==> r.error == RangeError
  {
    if !Fits(p, 16, |b|) then Err(RangeError)
    else
      Ok(Placed(AnimationHeader(
        numberOfChannels := b[p + 2],
        numberOfFrames := U16(b, p),
        numberOfFramesRotation := b[p + 5],
        numberOfFramesTranslation := b[p + 3],
        numberOfStaticTranslation := b[p + 4],
        offsetData := Offset31(b, p + 12),
        offsetFramesRotation := U16(b, p + 10),
        offsetFramesTranslation := U16(b, p + 6),
        offsetStaticTranslation := U16(b, p + 8)), p + 16))
  }

  /** Three bytes, as `getBytes(3)` returns them. */
  type Triple = s: seq<byte> | |s| == 3 witness [0, 0, 0]

  /** A channel: the flag byte, three rotation bytes and three translation bytes; one unused
      byte follows. */
  datatype Channel = Channel(flag: byte, rotation: Triple, translation: Triple)

  function ChannelAt(b: seq<byte>, p: int): Channel
    requires Fits(p, 7, |b|)
  {
    Channel(b[p], b[p + 1..p + 4], b[p + 4..p + 7])
  }

  function ChannelRecord(b: seq<byte>): int -> Result<Channel>
  {
    o => if Fits(o, 7, |b|) then Ok(ChannelAt(b, o)) else Err(RangeError)
  }

  /** Where the channels start: four bytes past `offsetData`. */
  function ChannelsStart(h: AnimationHeader): nat { h.offsetData + 4 }

  /** `flag & mask` for the one-bit masks the source tests: bit `bit` of the flag. */
  predicate FlagSet(flag: byte, bit: nat)
  {
    Bit(flag, bit) == 1
  }

  /** The flag bit of rotation axis `axis` (masks 0x01, 0x02, 0x04) and of translation axis
      `axis` (masks 0x10, 0x20, 0x40). */
  function RotationBit(axis: nat): nat { axis }
  function TranslationBit(axis: nat): nat { 4 + axis }

  /** The position of the per-frame rotation byte `index` in `frame`. */
  function FrameRotationPosition(h: AnimationHeader, index: nat, frame: nat): nat
  {
    h.offsetData + h.offsetFramesRotation + index * h.numberOfFrames + frame
  }

  /** The position of the per-frame translation `index` in `frame`, two bytes per value. */
  function FrameTranslationPosition(h: AnimationHeader, index: nat, frame: nat): nat
  {
    h.offsetData + h.offsetFramesTranslation + index * h.numberOfFrames * 2 + frame * 2
  }

  /** The position of the static translation `index`, two bytes per value. */
  function StaticTranslationPosition(h: AnimationHeader, index: nat): nat
  {
    h.offsetData + h.offsetStaticTranslation + index * 2
  }

  /** The rotation of axis `axis` in `frame`: the per-frame byte when its flag bit is set,
      otherwise the channel's own byte. */
  function RotationAt(b: seq<byte>, h: AnimationHeader, c: Channel, axis: nat, frame: nat): (r: Result<int>)
    requires axis < 3
    ensures r.Err? ==> r.error == RangeError
  {
    var index := c.rotation[axis];
    if !FlagSet(c.flag, RotationBit(axis)) then Ok(index)
    else
      var p := FrameRotationPosition(h, index, frame);
      if Fits(p, 1, |b|) then Ok(b[p]) else Err(RangeError)
  }

  /** The translation of axis `axis` in `frame`: the per-frame value when its flag bit is set,
      else the static value the channel's byte indexes, or 0 for the index 0xFF. */
  function TranslationAt(b: seq<byte>, h: AnimationHeader, c: Channel, axis: nat, frame: nat): (r: Result<int>)
    requires axis < 3
    ensures r.Err? ==> r.error == RangeError
  {
    var index := c.translation[axis];
    if FlagSet(c.flag, TranslationBit(axis)) then
      var p := FrameTranslationPosition(h, index, frame);
      if Fits(p, 2, |b|) then Ok(Int16(U16(b, p))) else Err(RangeError)
    else if index != 0xFF then
      var p := StaticTranslationPosition(h, index);
      if Fits(p, 2, |b|) then Ok(Int16(U16(b, p))) else Err(RangeError)
    else Ok(0)
  }

  datatype Frame = Frame(rotation: seq<int>, translation: seq<int>)

  /** One frame of one channel: the three rotations, then the three translations. */
  function FrameAt(b: seq<byte>, h: AnimationHeader, c: Channel, frame: nat): (r: Result<Frame>)
    ensures r.Err? ==> r.error == RangeError
  {
    var rx := RotationAt(b, h, c, 0, frame);
    var ry := RotationAt(b, h, c, 1, frame);
    var rz := RotationAt(b, h, c, 2, frame);
    var tx := TranslationAt(b, h, c, 0, frame);
    var ty := TranslationAt(b, h, c, 1, frame);
    var tz := TranslationAt(b, h, c, 2, frame);
    if rx.Ok? && ry.Ok? && rz.Ok? && tx.Ok? && ty.Ok? && tz.Ok? then
      Ok(Frame([rx.value, ry.value, rz.value], [tx.value, ty.value, tz.value]))
    else Err(RangeError)
  }

  /** A rotation whose flag bit is clear is the channel's own byte and needs no read; one whose
      bit is set is the byte at `offsetData + offsetFramesRotation + index * frames + frame`. */
  lemma RotationSource(b: seq<byte>, h: AnimationHeader, c: Channel, axis: nat, frame: nat)
    requires axis < 3
    ensures var r := RotationAt(b, h, c, axis, frame);
      var p := h.offsetData + h.offsetFramesRotation + c.rotation[axis] * h.numberOfFrames + frame;
      && (Bit(c.flag, axis) == 0 ==> r == Ok(c.rotation[axis] as int))
      && (Bit(c.flag, axis) == 1 ==> (r.Ok? <==> p < |b|) && (r.Ok? ==> r.value == b[p]))
      && (r.Ok? ==> 0 <= r.value < 256)
  {
  }

  /** A translation is the per-frame value when its flag bit is set, else the static value its
      index selects, else, for the index 0xFF, 0; each value read is a signed 16-bit number. */
  lemma TranslationSource(b: seq<byte>, h: AnimationHeader, c: Channel, axis: nat, frame: nat)
    requires axis < 3
    ensures var r := TranslationAt(b, h, c, axis, frame);
      var t := c.translation[axis];
      var perFrame := h.offsetData + h.offsetFramesTranslation + 2 * (t * h.numberOfFrames + frame);
      var fixed := h.offsetData + h.offsetStaticTranslation + 2 * t;
      && (Bit(c.flag, 4 + axis) == 1 ==> (r.Ok? <==> perFrame + 2 <= |b|) && (r.Ok? ==> r.value == Int16(U16(b, perFrame))))
      && (Bit(c.flag, 4 + axis) == 0 && t != 0xFF ==> (r.Ok? <==> fixed + 2 <= |b|) && (r.Ok? ==> r.value == Int16(U16(b, fixed))))
      && (Bit(c.flag, 4 + axis) == 0 && t == 0xFF ==> r == Ok(0))
      && (r.Ok? ==> -32768 <= r.value < 32768)
  {
    var t := c.translation[axis];
    assert t * h.numberOfFrames * 2 + frame * 2 == 2 * (t * h.numberOfFrames + frame);
  }

  /** The frames `frame`, `frame + 1`, ... of one channel. */
  function FramesFrom(b: seq<byte>, h: AnimationHeader, c: Channel, frame: nat): (r: Result<seq<Frame>>)
    ensures r.Err? ==> r.error == RangeError
    decreases h.numberOfFrames - frame
  {
    if frame >= h.numberOfFrames then Ok([])
    else
      match FrameAt(b, h, c, frame)
      case Err(e) => Err(e)
      case Ok(f) =>
        match FramesFrom(b, h, c, frame + 1)
        case Err(e) => Err(e)
        case Ok(rest) => Ok([f] + rest)
  }

  /** The frame table of the channels `cs`, channel by channel. */
  function ChannelFrames(b: seq<byte>, h: AnimationHeader, cs: seq<Channel>): (r: Result<seq<seq<Frame>>>)
    ensures r.Err? ==> r.error == RangeError
  {
    if cs == [] then Ok([])
    else
      match FramesFrom(b, h, cs[0], 0)
      case Err(e) => Err(e)
      case Ok(frames) =>
        match ChannelFrames(b, h, cs[1..])
        case Err(e) => Err(e)
        case Ok(rest) => Ok([frames] + rest)
  }

  /** `parseModelAnimationsData`: the channels from four bytes past `offsetData`, eight bytes
      apart, then for each channel its frames. */
  function AnimationDataAt(b: seq<byte>, h: AnimationHeader): (r: Result<seq<seq<Frame>>>)
  {
    match RecordsAt(ChannelRecord(b), ChannelsStart(h), 8, h.numberOfChannels)
    case Err(e) => Err(e)
    case Ok(channels) => ChannelFrames(b, h, channels.value)
  }

  /** A channel's frame list that is read holds `numberOfFrames - frame` frames, the one at `k`
      being frame `frame + k`. */
  lemma {:induction false} FramesFromPlaced(b: seq<byte>, h: AnimationHeader, c: Channel, frame: nat)
    requires FramesFrom(b, h, c, frame).Ok?
    ensures var r := FramesFrom(b, h, c, frame).value;
      && |r| == (if frame < h.numberOfFrames then h.numberOfFrames - frame else 0)
      && forall k | 0 <= k < |r| :: FrameAt(b, h, c, frame + k) == Ok(r[k])
    decreases h.numberOfFrames - frame
  {
    if frame < h.numberOfFrames {
      FramesFromPlaced(b, h, c, frame + 1);
      var first := FrameAt(b, h, c, frame);
      var rest := FramesFrom(b, h, c, frame + 1).value;
      var r := FramesFrom(b, h, c, frame).value;
      assert first.Ok? && r == [first.value] + rest;
      forall k | 0 <= k < |r|
        ensures FrameAt(b, h, c, frame + k) == Ok(r[k])
      {
        if k > 0 {
          assert r[k] == rest[k - 1];
        }
      }
    }
  }

  /** A channel's frame list is read when each of its frames is. */
  lemma {:induction false} FramesFromSucceed(b: seq<byte>, h: AnimationHeader, c: Channel, frame: nat)
    requires forall f | frame <= f < h.numberOfFrames :: FrameAt(b, h, c, f).Ok?
    ensures FramesFrom(b, h, c, frame).Ok?
    decreases h.numberOfFrames - frame
  {
    if frame < h.numberOfFrames {
      FramesFromSucceed(b, h, c, frame + 1);
    }
  }

  /** A channel's frame list holds `numberOfFrames - frame` frames, the one at `k` being frame
      `frame + k`, and fails exactly when one of those frames does. */
  lemma FramesFromShape(b: seq<byte>, h: AnimationHeader, c: Channel, frame: nat)
    ensures var r := FramesFrom(b, h, c, frame);
      && (r.Ok? <==> forall f | frame <= f < h.numberOfFrames :: FrameAt(b, h, c, f).Ok?)
      && (r.Ok? ==> && |r.value| == (if frame < h.numberOfFrames then h.numberOfFrames - frame else 0)
                    && forall k | 0 <= k < |r.value| :: FrameAt(b, h, c, frame + k) == Ok(r.value[k]))
  {
    if FramesFrom(b, h, c, frame).Ok? {
      FramesFromPlaced(b, h, c, frame);
      forall f | frame <= f < h.numberOfFrames
        ensures FrameAt(b, h, c, f).Ok?
      {
        assert FrameAt(b, h, c, frame + (f - frame)) == Ok(FramesFrom(b, h, c, frame).value[f - frame]);
      }
    } else if forall f | frame <= f < h.numberOfFrames :: FrameAt(b, h, c, f).Ok? {
      FramesFromSucceed(b, h, c, frame);
    }
  }

  /** The animation is a table of `|cs|` channels by `numberOfFrames` frames, whose cell
      `[i][f]` is frame `f` of channel `i`, and it fails exactly when one cell does. */
  lemma {:induction false} ChannelFramesShape(b: seq<byte>, h: AnimationHeader, cs: seq<Channel>)
    ensures var r := ChannelFrames(b, h, cs);
      && (r.Ok? <==> forall i, f | 0 <= i < |cs| && 0 <= f < h.numberOfFrames :: FrameAt(b, h, cs[i], f).Ok?)
      && (r.Ok? ==> && |r.value| == |cs|
                    && (forall i | 0 <= i < |cs| :: |r.value[i]| == h.numberOfFrames)
                    && forall i, f | 0 <= i < |cs| && 0 <= f < h.numberOfFrames :: FrameAt(b, h, cs[i], f) == Ok(r.value[i][f]))
  {
    if cs != [] {
      FramesFromShape(b, h, cs[0], 0);
      ChannelFramesShape(b, h, cs[1..]);
      var r := ChannelFrames(b, h, cs);
      if r.Ok? {
        var rest := ChannelFrames(b, h, cs[1..]).value;
        forall i, f | 0 <= i < |cs| && 0 <= f < h.numberOfFrames
          ensures FrameAt(b, h, cs[i], f) == Ok(r.value[i][f])
        {
          if i > 0 {
            assert cs[i] == cs[1..][i - 1] && r.value[i] == rest[i - 1];
          }
        }
      } else if FramesFrom(b, h, cs[0], 0).Ok? {
        var i :| 0 <= i < |cs[1..]| && exists f | 0 <= f < h.numberOfFrames :: FrameAt(b, h, cs[1..][i], f).Err?;
        assert cs[1..][i] == cs[i + 1];
      }
    }
  }

  /** One turn of the `animations` map of `parseModel`: the animation header at `o`, then, out
      of line, its frame table. */
  function AnimationAt(b: seq<byte>, o: int): (r: Result<Animation>)
  {
    match AnimationHeaderAt(b, o)
    case Err(e) => Err(e)
    case Ok(header) =>
      match AnimationDataAt(b, header.value)
      case Err(e) => Err(e)
      case Ok(channels) => Ok(Animation(channels))
  }

  function AnimationRecord(b: seq<byte>): int -> Result<Animation>
  {
    o => AnimationAt(b, o)
  }

  /** An animation is `numberOfChannels` x `numberOfFrames` frames: channel `i` is read eight
      bytes apart from `offsetData + 4`, and cell `[i][f]` is frame `f` of that channel. */
  lemma AnimationShape(b: seq<byte>, h: AnimationHeader)
    requires AnimationDataAt(b, h).Ok?
    ensures var a := AnimationDataAt(b, h).value;
      && |a| == h.numberOfChannels
      && forall i | 0 <= i < h.numberOfChannels ::
           var o := ChannelsStart(h) + 8 * i;
           && Fits(o, 7, |b|)
           && |a[i]| == h.numberOfFrames
           && forall f | 0 <= f < h.numberOfFrames :: FrameAt(b, h, ChannelAt(b, o), f) == Ok(a[i][f])
  {
    var run := RecordsAt(ChannelRecord(b), ChannelsStart(h), 8, h.numberOfChannels);
    assert run.Ok?;
    var channels := run.value.value;
    assert AnimationDataAt(b, h) == ChannelFrames(b, h, channels);
    var a := ChannelFrames(b, h, channels).value;
    RecordsEnd(ChannelRecord(b), ChannelsStart(h), 8, h.numberOfChannels);
    ChannelFramesShape(b, h, channels);
    forall i | 0 <= i < h.numberOfChannels
      ensures var o := ChannelsStart(h) + 8 * i;
        && Fits(o, 7, |b|) && |a[i]| == h.numberOfFrames
        && forall f | 0 <= f < h.numberOfFrames :: FrameAt(b, h, ChannelAt(b, o), f) == Ok(a[i][f])
    {
      RecordAt(ChannelRecord(b), ChannelsStart(h), 8, h.numberOfChannels, i);
      assert channels[i] == ChannelAt(b, ChannelsStart(h) + 8 * i);
    }
  }

  // ---------------------------------------------------------------- the model

  /** The frame table of one animation: channel by channel, frame by frame. */
  datatype Animation = Animation(channels: seq<seq<Frame>>)

  datatype Model = Model(animations: seq<Animation>, parts: seq<PartData>, skeleton: seq<Bone>)

  /** `parseModel` at `p`: the header; the skeleton at its masked offset; the part headers
      right after the skeleton, 32 bytes apart; the animation headers right after the part
      headers, 16 bytes apart. The header's `offsetParts` and `offsetAnimations` are read but
      not used. */
  function ModelAt(b: seq<byte>, p: int): (r: Result<Model>)
  {
    ModelFrom(b, p, PartRecord(b), AnimationRecord(b))
  }

  /** `parseModel` with the reading of one part and of one animation, each at the offset of
      its header, given as `part` and `animation`. */
  function ModelFrom(b: seq<byte>, p: int, part: int -> Result<PartData>, animation: int -> Result<Animation>): (r: Result<Model>)
  {
    match ModelHeaderAt(b, p)
    case Err(e) => Err(e)
    case Ok(header) =>
      var h := header.value;
      match RecordsAt(BoneRecord(b), h.offsetSkeleton, 4, h.numberOfBones)
      case Err(e) => Err(e)
      case Ok(skeleton) =>
        match RecordsAt(part, skeleton.end, 32, h.numberOfParts)
        case Err(e) => Err(e)
        case Ok(parts) =>
          match RecordsAt(animation, parts.end, 16, h.numberOfAnimations)
          case Err(e) => Err(e)
          case Ok(animations) => Ok(Model(animations.value, parts.value, skeleton.value))
  }

  /** `parseBCX` on a cursor at `p` (the viewer hands it a fresh one, at 0): the file header,
      then the model at `offsetModels`. */
  function BcxAt(b: seq<byte>, p: int): (r: Result<Model>)
  {
    match BcxHeaderAt(b, p)
    case Err(e) => Err(e)
    case Ok(header) => ModelAt(b, header.value.offsetModels)
  }

  /** Bone `i` of a skeleton run is the one four bytes times `i` past its start. */
  lemma SkeletonLayout(b: seq<byte>, start: int, n: nat)
    requires RecordsAt(BoneRecord(b), start, 4, n).Ok?
    ensures var bones := RecordsAt(BoneRecord(b), start, 4, n).value;
      && bones.end == start + 4 * n && |bones.value| == n
      && forall i | 0 <= i < n :: Fits(start + 4 * i, 4, |b|) && bones.value[i] == BoneAt(b, start + 4 * i)
  {
    RecordsEnd(BoneRecord(b), start, 4, n);
    forall i | 0 <= i < n
      ensures Fits(start + 4 * i, 4, |b|) && RecordsAt(BoneRecord(b), start, 4, n).value.value[i] == BoneAt(b, start + 4 * i)
    {
      RecordAt(BoneRecord(b), start, 4, n, i);
    }
  }

  /** A model that is read is made of the header and the three runs of records it reads:
      the bones at the masked skeleton offset, the part headers right after the bones and the
      animation headers right after the part headers, whatever reading a part's or an
      animation's data does. */
  lemma ModelSections(b: seq<byte>, p: int, part: int -> Result<PartData>, animation: int -> Result<Animation>)
    requires ModelFrom(b, p, part, animation).Ok?
    ensures ModelHeaderAt(b, p).Ok?
    ensures var h := ModelHeaderAt(b, p).value.value;
      && RecordsAt(BoneRecord(b), h.offsetSkeleton, 4, h.numberOfBones).Ok?
      && RecordsAt(part, h.offsetSkeleton + 4 * h.numberOfBones, 32, h.numberOfParts).Ok?
      && RecordsAt(animation, h.offsetSkeleton + 4 * h.numberOfBones + 32 * h.numberOfParts, 16, h.numberOfAnimations).Ok?
      && ModelFrom(b, p, part, animation).value == Model(
           RecordsAt(animation, h.offsetSkeleton + 4 * h.numberOfBones + 32 * h.numberOfParts, 16, h.numberOfAnimations).value.value,
           RecordsAt(part, h.offsetSkeleton + 4 * h.numberOfBones, 32, h.numberOfParts).value.value,
           RecordsAt(BoneRecord(b), h.offsetSkeleton, 4, h.numberOfBones).value.value)
  {
    var h := ModelHeaderAt(b, p).value.value;
    var partsStart := h.offsetSkeleton + 4 * h.numberOfBones;
    RecordsEnd(BoneRecord(b), h.offsetSkeleton, 4, h.numberOfBones);
    RecordsEnd(part, partsStart, 32, h.numberOfParts);
  }

  /** Bone `i` is the four bytes at the masked skeleton offset plus `4 * i`. */
  lemma ModelSkeletonLayout(b: seq<byte>, p: int, part: int -> Result<PartData>, animation: int -> Result<Animation>)
    requires ModelFrom(b, p, part, animation).Ok?
    ensures ModelHeaderAt(b, p).Ok?
    ensures var h := ModelHeaderAt(b, p).value.value;
      var m := ModelFrom(b, p, part, animation).value;
      && |m.skeleton| == h.numberOfBones
      && forall i | 0 <= i < h.numberOfBones ::
           Fits(h.offsetSkeleton + 4 * i, 4, |b|) && m.skeleton[i] == BoneAt(b, h.offsetSkeleton + 4 * i)
  {
    ModelSections(b, p, part, animation);
    var h := ModelHeaderAt(b, p).value.value;
    SkeletonLayout(b, h.offsetSkeleton, h.numberOfBones);
  }

  /** Part `i` is read from its header `32 * i` bytes past the end of the skeleton. */
  lemma ModelPartsLayout(b: seq<byte>, p: int, part: int -> Result<PartData>, animation: int -> Result<Animation>)
    requires ModelFrom(b, p, part, animation).Ok?
    ensures ModelHeaderAt(b, p).Ok?
    ensures var h := ModelHeaderAt(b, p).value.value;
      var m := ModelFrom(b, p, part, animation).value;
      && |m.parts| == h.numberOfParts
      && forall i | 0 <= i < h.numberOfParts ::
           part(h.offsetSkeleton + 4 * h.numberOfBones + 32 * i) == Ok(m.parts[i])
  {
    ModelSections(b, p, part, animation);
    var h := ModelHeaderAt(b, p).value.value;
    RunLayout(part, h.offsetSkeleton + 4 * h.numberOfBones, 32, h.numberOfParts);
  }

  /** Animation `j` is read from its header `16 * j` bytes past the end of the part headers. */
  lemma ModelAnimationsLayout(b: seq<byte>, p: int, part: int -> Result<PartData>, animation: int -> Result<Animation>)
    requires ModelFrom(b, p, part, animation).Ok?
    ensures ModelHeaderAt(b, p).Ok?
    ensures var h := ModelHeaderAt(b, p).value.value;
      var m := ModelFrom(b, p, part, animation).value;
      && |m.animations| == h.numberOfAnimations
      && forall j | 0 <= j < h.numberOfAnimations ::
           animation(h.offsetSkeleton + 4 * h.numberOfBones + 32 * h.numberOfParts + 16 * j) == Ok(m.animations[j])
  {
    ModelSections(b, p, part, animation);
    var h := ModelHeaderAt(b, p).value.value;
    RunLayout(animation, h.offsetSkeleton + 4 * h.numberOfBones + 32 * h.numberOfParts, 16, h.numberOfAnimations);
  }
}
