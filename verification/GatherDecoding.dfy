/** Decoding the gathered form of a captured draw. A gather holds one witness record per triangle corner instead of the
    source buffers; decoding rewrites it into a plain draw over the gathered records. The conversion of attribute bytes
    and the vertex transform are parameters. */
module GatherDecoding {
  import opened Arithmetic
  import opened Wrappers

  const MAX_CORNERS := 1_000_000

  /** The draw words the reconstruction reads; the last three say which streams are gathered. */
  datatype Draw = Draw(indexed: bool, indexType: nat, indexCount: nat, firstIndex: nat, vertexOffset: nat,
                       vertexCount: nat, firstVertex: nat,
                       positionStride: nat, positionOffset: nat, positionFormat: nat,
                       blendBinding: nat, blendStride: nat, blendWeightOffset: nat, blendWeightFormat: nat,
                       blendIndexOffset: nat, blendIndexFormat: nat, uvStride: nat,
                       positionGathered: bool, blendGathered: bool, uvGathered: bool)

  datatype Spans = Spans(position: seq<Byte>, index: seq<Byte>, blend: seq<Byte>, uv: seq<Byte>)

  /** What the draw's push constants and matrices decide: whether the matrix and palette checks pass, whether bone indices
      and weights are read, and where a vertex with these attribute bytes ends up (None where the reader raises). */
  datatype Shader<!W> = Shader(globalOk: bool, bones: bool, weights: bool,
                               place: (seq<Byte>, seq<Byte>, seq<Byte>) -> Option<W>)

  function Signed32(v: nat): int {
    if v < 0x8000_0000 then v else v - 0x1_0000_0000
  }

  function AttributeSize(format: nat): Option<nat> {
    match format
    case 100 => Some(4)
    case 103 => Some(8)
    case 106 => Some(12)
    case 109 => Some(16)
    case 39 => Some(4)
    case 41 => Some(4)
    case 37 => Some(4)
    case 72 => Some(2)
    case 74 => Some(2)
    case 93 => Some(8)
    case 95 => Some(8)
    case _ => None
  }

  /** The bytes of one vertex's attribute; None where the reader raises. */
  function Attribute(stream: seq<Byte>, format: nat, stride: nat, offset: nat, vertex: int): Option<seq<Byte>> {
    var size := AttributeSize(format);
    if size.None? || stride == 0 || offset + size.value > stride || vertex < 0 then None
    else
      var at := vertex * stride + offset;
      if at < 0 || at + size.value > |stream| then None else Some(stream[at..at + size.value])
  }

  // Indices

  function IndexBytes(d: Draw): nat {
    if d.indexType == 0 then 2 else 4
  }

  /** A little-endian unsigned number. */
  function Little(bytes: seq<Byte>): nat {
    if bytes == [] then 0 else bytes[0] + 256 * Little(bytes[1..])
  }

  function Corners(d: Draw): nat {
    if d.indexed then d.indexCount else d.vertexCount
  }

  predicate IndexRange(d: Draw, index: seq<Byte>) {
    && 0 < Corners(d) <= MAX_CORNERS
    && (d.indexed ==> d.indexType <= 1 && d.firstIndex * IndexBytes(d) + d.indexCount * IndexBytes(d) <= |index|)
  }

  lemma IndexInRange(d: Draw, index: seq<Byte>, corner: nat)
    requires IndexRange(d, index) && d.indexed && corner < Corners(d)
    ensures (d.firstIndex + corner) * IndexBytes(d) + IndexBytes(d) <= |index|
  {
  }

  /** The index a corner stores, before the base vertex is added. */
  function RawIndex(d: Draw, index: seq<Byte>, corner: nat): nat
    requires IndexRange(d, index) && corner < Corners(d)
  {
    if d.indexed then
      IndexInRange(d, index, corner);
      var at := (d.firstIndex + corner) * IndexBytes(d);
      Little(index[at..at + IndexBytes(d)])
    else d.firstVertex + corner
  }

  function ActualIndex(d: Draw, index: seq<Byte>, corner: nat): int
    requires IndexRange(d, index) && corner < Corners(d)
  {
    RawIndex(d, index, corner) + if d.indexed then Signed32(d.vertexOffset) else 0
  }

  // The plain form

  /** One blend attribute, from the blend stream when it is separate and else from the position stream. */
  function BlendAttribute(d: Draw, s: Spans, used: bool, format: nat, offset: nat, vertex: int, blendVertex: int)
    : Option<seq<Byte>>
  {
    if !used then Some([])
    else if d.blendBinding == 1 then Attribute(s.blend, format, d.blendStride, offset, blendVertex)
    else Attribute(s.position, format, d.positionStride, offset, vertex)
  }

  function PositionOf(d: Draw, s: Spans, vertex: int): Option<seq<Byte>> {
    Attribute(s.position, d.positionFormat, d.positionStride, d.positionOffset, vertex)
  }

  function BonesOf<W>(d: Draw, s: Spans, shader: Shader<W>, vertex: int, blendVertex: int): Option<seq<Byte>> {
    BlendAttribute(d, s, shader.bones, d.blendIndexFormat, d.blendIndexOffset, vertex, blendVertex)
  }

  function WeightsOf<W>(d: Draw, s: Spans, shader: Shader<W>, vertex: int, blendVertex: int): Option<seq<Byte>> {
    BlendAttribute(d, s, shader.weights, d.blendWeightFormat, d.blendWeightOffset, vertex, blendVertex)
  }

  function Placed<W>(shader: Shader<W>, position: Option<seq<Byte>>, bones: Option<seq<Byte>>,
                     weights: Option<seq<Byte>>): Option<W>
  {
    if position.None? || bones.None? || weights.None? then None
    else shader.place(position.value, bones.value, weights.value)
  }

  /** The world position of a vertex whose separate blend attributes are read at another vertex's place. */
  function MixedPlace<W>(d: Draw, s: Spans, shader: Shader<W>, vertex: int, blendVertex: int): Option<W> {
    Placed(shader, PositionOf(d, s, vertex), BonesOf(d, s, shader, vertex, blendVertex),
           WeightsOf(d, s, shader, vertex, blendVertex))
  }

  /** The world position of one vertex. */
  function Place<W>(d: Draw, s: Spans, shader: Shader<W>, vertex: int): Option<W> {
    MixedPlace(d, s, shader, vertex, vertex)
  }

  /** World positions corner by corner; None where the reader raises. */
  function Plain<W>(d: Draw, s: Spans, shader: Shader<W>): Option<seq<W>> {
    if !IndexRange(d, s.index) || !shader.globalOk then None
    else if exists c: nat | c < Corners(d) :: Place(d, s, shader, ActualIndex(d, s.index, c)).None? then None
    else Some(seq(Corners(d), c requires 0 <= c < Corners(d) && Place(d, s, shader, ActualIndex(d, s.index, c)).Some? =>
                Place(d, s, shader, ActualIndex(d, s.index, c)).value))
  }

  // The gathered form

  const HEADER := 16

  /** One gather record: the stored index, the vertex, an accepted flag, a zero, then the vertex's bytes. */
  function Record(span: seq<Byte>, count: nat, stride: nat, corner: nat): (r: seq<Byte>)
    requires |span| == count * (HEADER + stride) && corner < count
    ensures |r| == HEADER + stride
  {
    StridesApart(corner, count, HEADER + stride);
    span[corner * (HEADER + stride)..corner * (HEADER + stride) + (HEADER + stride)]
  }

  function HeaderWord(record: seq<Byte>, k: nat): nat
    requires |record| >= HEADER && k < 4
  {
    Little(record[4 * k..4 * k + 4])
  }

  function Body(record: seq<Byte>): seq<Byte>
    requires |record| >= HEADER
  {
    record[HEADER..]
  }

  function Bodies(span: seq<Byte>, count: nat, stride: nat, n: nat): seq<Byte>
    requires |span| == count * (HEADER + stride) && n <= count
  {
    if n == 0 then [] else Bodies(span, count, stride, n - 1) + Body(Record(span, count, stride, n - 1))
  }

  predicate WitnessOk(d: Draw, index: seq<Byte>, span: seq<Byte>, stride: nat, corner: nat)
    requires IndexRange(d, index) && corner < Corners(d) && |span| == Corners(d) * (HEADER + stride)
  {
    var r := Record(span, Corners(d), stride, corner);
    && HeaderWord(r, 0) == RawIndex(d, index, corner) && HeaderWord(r, 1) == ActualIndex(d, index, corner)
    && HeaderWord(r, 2) == 1 && HeaderWord(r, 3) == 0
  }

  /** The checks on one gathered stream: extent, index witnesses, and equal bytes for a repeated vertex. */
  predicate StreamOk(d: Draw, index: seq<Byte>, span: seq<Byte>, stride: nat)
    requires IndexRange(d, index)
  {
    && stride > 0 && stride % 4 == 0 && |span| == Corners(d) * (HEADER + stride)
    && (forall c: nat | c < Corners(d) :: WitnessOk(d, index, span, stride, c))
    && forall c: nat, e: nat | c < Corners(d) && e < Corners(d) ::
         ActualIndex(d, index, c) == ActualIndex(d, index, e) ==>
           Body(Record(span, Corners(d), stride, c)) == Body(Record(span, Corners(d), stride, e))
  }

  predicate BaseVertexOk(d: Draw, index: seq<Byte>)
    requires IndexRange(d, index)
  {
    forall c: nat | c < Corners(d) :: 0 <= ActualIndex(d, index, c) < 0x8000_0000
  }

  predicate GatherOk(d: Draw, s: Spans) {
    && IndexRange(d, s.index) && BaseVertexOk(d, s.index)
    && (d.positionGathered ==> StreamOk(d, s.index, s.position, d.positionStride))
    && (d.blendGathered ==> StreamOk(d, s.index, s.blend, d.blendStride))
    && (d.uvGathered ==> StreamOk(d, s.index, s.uv, d.uvStride))
  }

  function FourBytes(n: nat): (r: seq<Byte>)
    requires n < 0x1_0000_0000
    ensures |r| == 4
  {
    [n % 256, n / 256 % 256, n / 65536 % 256, n / 16777216]
  }

  function Counting(n: nat): (r: seq<Byte>)
    requires n <= MAX_CORNERS
    ensures |r| == 4 * n
  {
    if n == 0 then [] else Counting(n - 1) + FourBytes(n - 1)
  }

  /** The plain draw a gather is decoded into: corner c reads record c. */
  function Normalized(d: Draw): Draw {
    d.(indexType := 1, indexCount := Corners(d), firstIndex := 0, vertexOffset := 0, vertexCount := Corners(d),
       firstVertex := 0, indexed := true, positionGathered := false, blendGathered := false, uvGathered := false)
  }

  function Decoded(d: Draw, s: Spans): Spans
    requires GatherOk(d, s)
  {
    var n := Corners(d);
    Spans(if d.positionGathered then Bodies(s.position, n, d.positionStride, n) else s.position, Counting(n),
          if d.blendGathered then Bodies(s.blend, n, d.blendStride, n) else s.blend,
          if d.uvGathered then Bodies(s.uv, n, d.uvStride, n) else s.uv)
  }

  /** reconstruct: a gathered draw is checked, decoded and read as a plain one. */
  function Reconstruct<W>(d: Draw, s: Spans, shader: Shader<W>): Option<seq<W>> {
    if !d.positionGathered then Plain(d, s, shader)
    else if !GatherOk(d, s) then None
    else Plain(Normalized(d), Decoded(d, s), shader)
  }

  // Decoding preserves positions

  /** The gather of one stream was taken from this source buffer: each corner's record carries its index, its vertex and the
      vertex's whole record in the source. */
  ghost predicate TakenFrom(d: Draw, index: seq<Byte>, span: seq<Byte>, stride: nat, source: seq<Byte>)
    requires IndexRange(d, index) && BaseVertexOk(d, index)
  {
    && stride > 0 && stride % 4 == 0 && |span| == Corners(d) * (HEADER + stride)
    && forall c: nat | c < Corners(d) ::
         && WitnessOk(d, index, span, stride, c)
         && Holds(source, stride, ActualIndex(d, index, c), Body(Record(span, Corners(d), stride, c)))
  }

  /** The vertex's record in the buffer is these bytes. */
  predicate Holds(source: seq<Byte>, stride: nat, vertex: int, record: seq<Byte>)
    requires vertex >= 0
  {
    var at := vertex * stride;
    0 <= at && at + stride <= |source| && source[at..at + stride] == record
  }

  lemma {:induction false} BodiesLength(span: seq<Byte>, count: nat, stride: nat, n: nat)
    requires |span| == count * (HEADER + stride) && n <= count
    ensures |Bodies(span, count, stride, n)| == n * stride
  {
    if n > 0 {
      BodiesLength(span, count, stride, n - 1);
      NextStride(n - 1, stride);
    }
  }

  lemma {:induction false} BodiesHold(span: seq<Byte>, count: nat, stride: nat, n: nat, c: nat)
    requires |span| == count * (HEADER + stride) && c < n <= count
    ensures Holds(Bodies(span, count, stride, n), stride, c, Body(Record(span, count, stride, c)))
  {
    var earlier, last := Bodies(span, count, stride, n - 1), Body(Record(span, count, stride, n - 1));
    BodiesLength(span, count, stride, n - 1);
    if c < n - 1 {
      BodiesHold(span, count, stride, n - 1, c);
      HoldsInPrefix(earlier, last, stride, c, Body(Record(span, count, stride, c)));
    } else {
      SliceAtEnd(earlier, last);
    }
  }

  lemma SliceOfPrefix(a: seq<Byte>, b: seq<Byte>, at: nat, size: nat)
    requires at + size <= |a|
    ensures (a + b)[at..at + size] == a[at..at + size]
  {
  }

  lemma HoldsInPrefix(a: seq<Byte>, b: seq<Byte>, stride: nat, vertex: nat, record: seq<Byte>)
    requires Holds(a, stride, vertex, record)
    ensures Holds(a + b, stride, vertex, record)
  {
    SliceOfPrefix(a, b, vertex * stride, stride);
  }

  lemma SliceAtEnd(a: seq<Byte>, b: seq<Byte>)
    ensures (a + b)[|a|..|a| + |b|] == b
  {
  }

  lemma HoldsAtEnd(a: seq<Byte>, b: seq<Byte>, stride: nat, vertex: nat)
    requires |a| == vertex * stride && |b| == stride
    ensures Holds(a + b, stride, vertex, b)
  {
    SliceAtEnd(a, b);
  }

  lemma SliceOfRecord(source: seq<Byte>, at: nat, stride: nat, record: seq<Byte>, offset: nat, size: nat)
    requires at + stride <= |source| && source[at..at + stride] == record && offset + size <= stride
    ensures source[at + offset..at + offset + size] == record[offset..offset + size]
  {
    var a, b := source[at + offset..at + offset + size], record[offset..offset + size];
    forall k | 0 <= k < size ensures a[k] == b[k] {
      assert record[offset + k] == source[at + offset + k];
    }
    assert a == b;
  }

  lemma HoldsSlice(source: seq<Byte>, stride: nat, vertex: int, record: seq<Byte>, offset: nat, size: nat)
    requires vertex >= 0 && Holds(source, stride, vertex, record) && offset + size <= stride
    ensures var at := vertex * stride + offset;
      0 <= at && at + size <= |source| && source[at..at + size] == record[offset..offset + size]
  {
    SliceOfRecord(source, vertex * stride, stride, record, offset, size);
  }

  /** Reading an attribute needs only the vertex's own record. */
  lemma SameRecordSameAttribute(a: seq<Byte>, b: seq<Byte>, stride: nat, v: int, w: int, record: seq<Byte>,
                                format: nat, offset: nat)
    requires v >= 0 && w >= 0 && Holds(a, stride, v, record) && Holds(b, stride, w, record)
    ensures Attribute(a, format, stride, offset, v) == Attribute(b, format, stride, offset, w)
  {
    var size := AttributeSize(format);
    if size.Some? && stride > 0 && offset + size.value <= stride {
      HoldsSlice(a, stride, v, record, offset, size.value);
      HoldsSlice(b, stride, w, record, offset, size.value);
    }
  }

  lemma LittleNext(bytes: seq<Byte>)
    requires bytes != []
    ensures Little(bytes) == bytes[0] as int + 256 * Little(bytes[1..])
  {
  }

  lemma LittleOfBytes(b: seq<Byte>)
    requires |b| == 4
    ensures Little(b) == b[0] as int + 256 * (b[1] as int + 256 * (b[2] as int + 256 * b[3] as int))
  {
    var b1, b2, b3 := b[1..], b[2..], b[3..];
    LittleNext(b);
    LittleNext(b1);
    assert b1[1..] == b2;
    LittleNext(b2);
    assert b2[1..] == b3;
    LittleNext(b3);
    assert b3[1..] == [];
  }

  lemma FourBytesAddUp(n: nat)
    requires n < 0x1_0000_0000
    ensures n == n % 256 + 256 * (n / 256 % 256 + 256 * (n / 65536 % 256 + 256 * (n / 16777216)))
  {
    var a, b := n / 256, n / 65536;
    assert b == a / 256 && n / 16777216 == b / 256;
  }

  lemma LittleOfFour(n: nat)
    requires n < 0x1_0000_0000
    ensures Little(FourBytes(n)) == n
  {
    LittleOfBytes(FourBytes(n));
    FourBytesAddUp(n);
  }

  lemma {:induction false} CountingAt(n: nat, c: nat)
    requires c < n <= MAX_CORNERS
    ensures Counting(n)[4 * c..4 * c + 4] == FourBytes(c)
  {
    if c < n - 1 {
      CountingAt(n - 1, c);
    }
  }

  lemma NormalizedIndex(d: Draw, c: nat)
    requires 0 < Corners(d) <= MAX_CORNERS && c < Corners(d)
    ensures IndexRange(Normalized(d), Counting(Corners(d))) && ActualIndex(Normalized(d), Counting(Corners(d)), c) == c
  {
    CountingAt(Corners(d), c);
    LittleOfFour(c);
  }

  /** Every vertex stream the draw reads is gathered. */
  predicate StreamsGathered<W>(d: Draw, shader: Shader<W>) {
    d.positionGathered && (d.blendBinding == 1 && (shader.bones || shader.weights) ==> d.blendGathered)
  }

  /** g holds gathers of the streams of s, over the same index bytes. */
  ghost predicate GatherOf(d: Draw, g: Spans, s: Spans) {
    && g.index == s.index && IndexRange(d, s.index) && BaseVertexOk(d, s.index)
    && (d.positionGathered ==> TakenFrom(d, s.index, g.position, d.positionStride, s.position))
    && (d.blendGathered ==> TakenFrom(d, s.index, g.blend, d.blendStride, s.blend))
    && (d.uvGathered ==> TakenFrom(d, s.index, g.uv, d.uvStride, s.uv))
  }

  lemma TakenIsOk(d: Draw, index: seq<Byte>, span: seq<Byte>, stride: nat, source: seq<Byte>)
    requires IndexRange(d, index) && BaseVertexOk(d, index) && TakenFrom(d, index, span, stride, source)
    ensures StreamOk(d, index, span, stride)
  {
  }

  lemma GatherPasses(d: Draw, g: Spans, s: Spans)
    requires GatherOf(d, g, s)
    ensures GatherOk(d, g)
  {
    if d.positionGathered { TakenIsOk(d, s.index, g.position, d.positionStride, s.position); }
    if d.blendGathered { TakenIsOk(d, s.index, g.blend, d.blendStride, s.blend); }
    if d.uvGathered { TakenIsOk(d, s.index, g.uv, d.uvStride, s.uv); }
  }

  /** Reading through the decoded stream at corner c is reading through the source at the corner's vertex. */
  lemma SameStream(d: Draw, index: seq<Byte>, span: seq<Byte>, stride: nat, source: seq<Byte>, format: nat, offset: nat, c: nat)
    requires IndexRange(d, index) && BaseVertexOk(d, index) && TakenFrom(d, index, span, stride, source) && c < Corners(d)
    ensures Attribute(Bodies(span, Corners(d), stride, Corners(d)), format, stride, offset, c)
         == Attribute(source, format, stride, offset, ActualIndex(d, index, c))
  {
    var n := Corners(d);
    BodiesHold(span, n, stride, n, c);
    SameRecordSameAttribute(Bodies(span, n, stride, n), source, stride, c, ActualIndex(d, index, c),
                            Body(Record(span, n, stride, c)), format, offset);
  }

  lemma SamePosition(d: Draw, g: Spans, s: Spans, c: nat)
    requires GatherOf(d, g, s) && GatherOk(d, g) && d.positionGathered && c < Corners(d)
    ensures PositionOf(Normalized(d), Decoded(d, g), c) == PositionOf(d, s, ActualIndex(d, s.index, c))
  {
    SameStream(d, s.index, g.position, d.positionStride, s.position, d.positionFormat, d.positionOffset, c);
  }

  lemma SameBlend(d: Draw, g: Spans, s: Spans, used: bool, format: nat, offset: nat, c: nat)
    requires GatherOf(d, g, s) && GatherOk(d, g) && d.positionGathered && c < Corners(d)
    requires used && d.blendBinding == 1 ==> d.blendGathered
    ensures BlendAttribute(Normalized(d), Decoded(d, g), used, format, offset, c, c)
         == BlendAttribute(d, s, used, format, offset, ActualIndex(d, s.index, c), ActualIndex(d, s.index, c))
  {
    if d.blendBinding != 1 {
      SameStream(d, s.index, g.position, d.positionStride, s.position, format, offset, c);
    } else if d.blendGathered {
      SameStream(d, s.index, g.blend, d.blendStride, s.blend, format, offset, c);
    }
  }

  lemma SamePlace<W>(d: Draw, g: Spans, s: Spans, shader: Shader<W>, c: nat)
    requires GatherOf(d, g, s) && GatherOk(d, g) && StreamsGathered(d, shader) && c < Corners(d)
    ensures Place(Normalized(d), Decoded(d, g), shader, c) == Place(d, s, shader, ActualIndex(d, s.index, c))
  {
    SamePosition(d, g, s, c);
    SameBlend(d, g, s, shader.bones, d.blendIndexFormat, d.blendIndexOffset, c);
    SameBlend(d, g, s, shader.weights, d.blendWeightFormat, d.blendWeightOffset, c);
  }

  /** If the gathered records were taken faithfully from the source buffers and every stream the draw reads is gathered,
      reconstructing the gather gives the same world position at every corner as the plain indexed draw over the source
      buffers, negative base vertex included; and one raises exactly when the other does. */
  lemma GatherPreservesPositions<W>(d: Draw, g: Spans, s: Spans, shader: Shader<W>)
    requires GatherOf(d, g, s) && StreamsGathered(d, shader)
    ensures Reconstruct(d, g, shader) == Plain(d, s, shader)
  {
    GatherPasses(d, g, s);
    var n, norm, plain := Corners(d), Normalized(d), Decoded(d, g);
    NormalizedIndex(d, 0);
    forall c: nat | c < n
      ensures ActualIndex(norm, plain.index, c) == c
      ensures Place(norm, plain, shader, c) == Place(d, s, shader, ActualIndex(d, s.index, c))
    {
      NormalizedIndex(d, c);
      SamePlace(d, g, s, shader, c);
    }
    SameCorners(norm, plain, d, s, shader);
  }

  /** What happens without that condition: when the blend stream is separate, in use and left ungathered, corner c still
      gets its own vertex's position, but the blend attributes of vertex number c. */
  lemma UngatheredBlendReadsByCorner<W>(d: Draw, g: Spans, s: Spans, shader: Shader<W>, c: nat)
    requires GatherOf(d, g, s) && GatherOk(d, g) && d.positionGathered && c < Corners(d)
    requires d.blendBinding == 1 && !d.blendGathered && g.blend == s.blend
    ensures Place(Normalized(d), Decoded(d, g), shader, c) == MixedPlace(d, s, shader, ActualIndex(d, s.index, c), c)
  {
    SamePosition(d, g, s, c);
  }

  lemma SameCorners<W>(d: Draw, s: Spans, e: Draw, t: Spans, shader: Shader<W>)
    requires IndexRange(d, s.index) && IndexRange(e, t.index) && Corners(d) == Corners(e)
    requires forall c: nat | c < Corners(d) ::
               Place(d, s, shader, ActualIndex(d, s.index, c)) == Place(e, t, shader, ActualIndex(e, t.index, c))
    ensures Plain(d, s, shader) == Plain(e, t, shader)
  {
    if Plain(d, s, shader).Some? {
      forall c: nat | c < Corners(d) ensures Place(e, t, shader, ActualIndex(e, t.index, c)).Some? {
        assert Place(d, s, shader, ActualIndex(d, s.index, c)).Some?;
      }
      assert Plain(d, s, shader).value == Plain(e, t, shader).value;
    } else if shader.globalOk {
      var c: nat :| c < Corners(d) && Place(d, s, shader, ActualIndex(d, s.index, c)).None?;
      assert Place(e, t, shader, ActualIndex(e, t.index, c)).None?;
    }
  }
}
