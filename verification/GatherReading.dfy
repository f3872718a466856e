/** What a reconstruction reads, byte by byte: an attribute is the bytes at its offset in its vertex's record, an index is
    a little-endian number plus the signed base vertex, and the checks on a gather accept exactly the gathers of some
    source. */
module GatherReading {
  import opened Arithmetic
  import opened GatherDecoding
  import opened Wrappers

  // One attribute

  /** The vertex formats: one to four 32-bit floats, four bytes, one or four 16-bit numbers. */
  lemma FormatSizes(format: nat)
    ensures AttributeSize(format) ==
              if format in {100, 103, 106, 109} then Some(4 * ((format - 97) / 3))
              else if format in {37, 39, 41} then Some(4)
              else if format in {72, 74} then Some(2)
              else if format in {93, 95} then Some(8)
              else None
  {
  }

  /** A buffer in which this vertex's record is these bytes. */
  function Around(before: seq<Byte>, record: seq<Byte>, after: seq<Byte>): seq<Byte> {
    before + record + after
  }

  /** Reading a format of the right size at the offset behind `left` gives exactly the bytes between left and right, at
      whatever vertex the record stands and whatever surrounds it. */
  lemma AttributeReads(before: seq<Byte>, left: seq<Byte>, a: seq<Byte>, right: seq<Byte>, after: seq<Byte>,
                       format: nat, stride: nat, vertex: nat)
    requires AttributeSize(format) == Some(|a|) && |before| == vertex * stride && |left| + |a| + |right| == stride
    requires stride > 0
    ensures Attribute(Around(before, left + a + right, after), format, stride, |left|, vertex) == Some(a)
  {
    hide AttributeSize;
    var stream := Around(before, left + a + right, after);
    var at := vertex * stride + |left|;
    assert stream[at..at + |a|] == a by {
      SliceBetween(before + left, a, right + after);
      assert stream == (before + left) + a + (right + after);
    }
  }

  lemma SliceBetween(a: seq<Byte>, b: seq<Byte>, c: seq<Byte>)
    ensures (a + b + c)[|a|..|a| + |b|] == b
  {
  }

  /** And it is refused exactly for an unknown format, an attribute that does not fit the stride, or a vertex whose
      attribute does not lie in the buffer. */
  lemma AttributeRefused(stream: seq<Byte>, format: nat, stride: nat, offset: nat, vertex: int)
    ensures Attribute(stream, format, stride, offset, vertex).None? <==>
              || AttributeSize(format).None? || stride == 0 || vertex < 0
              || offset + AttributeSize(format).value > stride
              || vertex * stride + offset + AttributeSize(format).value > |stream|
  {
    hide AttributeSize;
    if vertex >= 0 {
      ScaledBy(0, vertex, stride);
    }
  }

  // One index

  /** n in so many little-endian bytes. */
  function LittleBytes(n: nat, width: nat): (bytes: seq<Byte>)
    ensures |bytes| == width
  {
    if width == 0 then [] else [n % 256] + LittleBytes(n / 256, width - 1)
  }

  function Limit(width: nat): (limit: nat)
    ensures limit > 0
  {
    if width == 0 then 1 else 256 * Limit(width - 1)
  }

  lemma {:induction false} LittleRoundTrip(n: nat, width: nat)
    requires n < Limit(width)
    ensures Little(LittleBytes(n, width)) == n
  {
    if width > 0 {
      LittleRoundTrip(n / 256, width - 1);
      assert LittleBytes(n, width)[1..] == LittleBytes(n / 256, width - 1);
    }
  }

  lemma Limits()
    ensures Limit(2) == 0x1_0000 && Limit(4) == 0x1_0000_0000
  {
    assert Limit(1) == 256 && Limit(3) == 0x100_0000;
  }

  /** The 32-bit word that stores a base vertex. */
  function Stored(baseVertex: int): nat
    requires -0x8000_0000 <= baseVertex < 0x8000_0000
  {
    if baseVertex < 0 then baseVertex + 0x1_0000_0000 else baseVertex
  }

  lemma SignedRoundTrip(baseVertex: int)
    requires -0x8000_0000 <= baseVertex < 0x8000_0000
    ensures Signed32(Stored(baseVertex)) == baseVertex
  {
  }

  /** Corner c of an indexed draw is the little-endian number at place firstIndex + c of the index buffer, two bytes wide
      for index type 0 and four for index type 1, plus the signed base vertex. */
  lemma IndexReads(d: Draw, before: seq<Byte>, number: nat, after: seq<Byte>, baseVertex: int, c: nat)
    requires d.indexed && -0x8000_0000 <= baseVertex < 0x8000_0000 && d.vertexOffset == Stored(baseVertex)
    requires var width := if d.indexType == 0 then 2 else 4;
      && number < Limit(width) && |before| == (d.firstIndex + c) * width
      && IndexRange(d, before + LittleBytes(number, width) + after) && c < Corners(d)
    ensures var width := if d.indexType == 0 then 2 else 4;
      ActualIndex(d, before + LittleBytes(number, width) + after, c) == number + baseVertex
  {
    hide Little, LittleBytes, Limit;
    var width := if d.indexType == 0 then 2 else 4;
    SliceBetween(before, LittleBytes(number, width), after);
    LittleRoundTrip(number, width);
    IndexInRange(d, before + LittleBytes(number, width) + after, c);
  }

  lemma UnindexedReads(d: Draw, index: seq<Byte>, c: nat)
    requires !d.indexed && IndexRange(d, index) && c < Corners(d)
    ensures ActualIndex(d, index, c) == d.firstVertex + c
  {
  }

  // One corner

  /** The three attributes of a vertex as they stand in the buffers. */
  ghost predicate Stands(stream: seq<Byte>, format: nat, stride: nat, offset: nat, vertex: nat, a: seq<Byte>) {
    && AttributeSize(format) == Some(|a|)
    && exists before: seq<Byte>, left: seq<Byte>, right: seq<Byte>, after: seq<Byte> ::
         && stream == Around(before, left + a + right, after) && |before| == vertex * stride && |left| == offset
         && |left| + |a| + |right| == stride > 0
  }

  lemma StandsReads(stream: seq<Byte>, format: nat, stride: nat, offset: nat, vertex: nat, a: seq<Byte>)
    requires Stands(stream, format, stride, offset, vertex, a)
    ensures Attribute(stream, format, stride, offset, vertex) == Some(a)
  {
    hide AttributeSize, Attribute, Around;
    var before: seq<Byte>, left: seq<Byte>, right: seq<Byte>, after: seq<Byte> :|
      && stream == Around(before, left + a + right, after) && |before| == vertex * stride && |left| == offset
      && |left| + |a| + |right| == stride > 0;
    AttributeReads(before, left, a, right, after, format, stride, vertex);
  }

  /** What the shader is given for this vertex, in terms of the bytes of the buffers. */
  ghost predicate VertexStands<W>(d: Draw, s: Spans, shader: Shader<W>, v: nat, position: seq<Byte>, bones: seq<Byte>,
                                  weights: seq<Byte>) {
    var stream, stride := if d.blendBinding == 1 then s.blend else s.position,
                          if d.blendBinding == 1 then d.blendStride else d.positionStride;
    && Stands(s.position, d.positionFormat, d.positionStride, d.positionOffset, v, position)
    && (if shader.bones then Stands(stream, d.blendIndexFormat, stride, d.blendIndexOffset, v, bones) else bones == [])
    && (if shader.weights then Stands(stream, d.blendWeightFormat, stride, d.blendWeightOffset, v, weights)
        else weights == [])
  }

  lemma PlaceReads<W>(d: Draw, s: Spans, shader: Shader<W>, v: nat, position: seq<Byte>, bones: seq<Byte>,
                      weights: seq<Byte>)
    requires VertexStands(d, s, shader, v, position, bones, weights)
    ensures Place(d, s, shader, v) == shader.place(position, bones, weights)
  {
    hide Stands, Attribute;
    var stream, stride := if d.blendBinding == 1 then s.blend else s.position,
                          if d.blendBinding == 1 then d.blendStride else d.positionStride;
    StandsReads(s.position, d.positionFormat, d.positionStride, d.positionOffset, v, position);
    if shader.bones {
      StandsReads(stream, d.blendIndexFormat, stride, d.blendIndexOffset, v, bones);
    }
    if shader.weights {
      StandsReads(stream, d.blendWeightFormat, stride, d.blendWeightOffset, v, weights);
    }
  }

  /** A plain draw, in terms of its bytes: where it does not raise, corner c is the transform of the attributes that stand,
      at their formats, strides and offsets, in the record of the vertex the corner names. */
  lemma PlainReads<W>(d: Draw, s: Spans, shader: Shader<W>, c: nat, v: nat, position: seq<Byte>, bones: seq<Byte>,
                      weights: seq<Byte>)
    requires Plain(d, s, shader).Some? && c < Corners(d) && ActualIndex(d, s.index, c) == v
    requires VertexStands(d, s, shader, v, position, bones, weights)
    ensures |Plain(d, s, shader).value| == Corners(d)
    ensures shader.place(position, bones, weights) == Some(Plain(d, s, shader).value[c])
  {
    PlaceReads(d, s, shader, v, position, bones, weights);
    hide MixedPlace, VertexStands;
    assert Place(d, s, shader, ActualIndex(d, s.index, c)) == shader.place(position, bones, weights);
  }

  /** So is a gathered draw whose streams in use were gathered from such buffers. */
  lemma GatheredReads<W>(d: Draw, g: Spans, s: Spans, shader: Shader<W>, c: nat, v: nat, position: seq<Byte>,
                         bones: seq<Byte>, weights: seq<Byte>)
    requires GatherOf(d, g, s) && StreamsGathered(d, shader) && Reconstruct(d, g, shader).Some?
    requires c < Corners(d) && ActualIndex(d, s.index, c) == v
    requires VertexStands(d, s, shader, v, position, bones, weights)
    ensures |Reconstruct(d, g, shader).value| == Corners(d)
    ensures shader.place(position, bones, weights) == Some(Reconstruct(d, g, shader).value[c])
  {
    hide Reconstruct, Plain, VertexStands;
    GatherPreservesPositions(d, g, s, shader);
    PlainReads(d, s, shader, c, v, position, bones, weights);
  }

  // The checks accept exactly the gathers of some source

  /** The first of the corners before n that names this vertex. */
  function CornerOf(d: Draw, index: seq<Byte>, v: int, n: nat): (c: Option<nat>)
    requires IndexRange(d, index) && n <= Corners(d)
    ensures c.Some? ==> c.value < n && ActualIndex(d, index, c.value) == v
    ensures c.None? ==> forall e: nat | e < n :: ActualIndex(d, index, e) != v
  {
    if n == 0 then None
    else
      var earlier := CornerOf(d, index, v, n - 1);
      if earlier.Some? then earlier else if ActualIndex(d, index, n - 1) == v then Some(n - 1) else None
  }

  function Zeros(n: nat): (z: seq<Byte>)
    ensures |z| == n
  {
    seq(n, _ => 0)
  }

  /** The record of vertex v as the gather has it; zeros where no corner names it. */
  function RecordOf(d: Draw, index: seq<Byte>, span: seq<Byte>, stride: nat, v: nat): (r: seq<Byte>)
    requires IndexRange(d, index) && |span| == Corners(d) * (HEADER + stride)
    ensures |r| == stride
  {
    var c := CornerOf(d, index, v, Corners(d));
    if c.Some? then Body(Record(span, Corners(d), stride, c.value)) else Zeros(stride)
  }

  /** A source buffer of n vertices from which the gather could have been taken. */
  function Rebuilt(d: Draw, index: seq<Byte>, span: seq<Byte>, stride: nat, n: nat): seq<Byte>
    requires IndexRange(d, index) && |span| == Corners(d) * (HEADER + stride)
  {
    if n == 0 then [] else Rebuilt(d, index, span, stride, n - 1) + RecordOf(d, index, span, stride, n - 1)
  }

  lemma {:induction false} RebuiltLength(d: Draw, index: seq<Byte>, span: seq<Byte>, stride: nat, n: nat)
    requires IndexRange(d, index) && |span| == Corners(d) * (HEADER + stride)
    ensures |Rebuilt(d, index, span, stride, n)| == n * stride
  {
    hide RecordOf, IndexRange;
    if n > 0 {
      RebuiltLength(d, index, span, stride, n - 1);
      NextStride(n - 1, stride);
    }
  }

  lemma {:induction false} RebuiltHolds(d: Draw, index: seq<Byte>, span: seq<Byte>, stride: nat, n: nat, v: nat)
    requires IndexRange(d, index) && |span| == Corners(d) * (HEADER + stride) && v < n
    ensures Holds(Rebuilt(d, index, span, stride, n), stride, v, RecordOf(d, index, span, stride, v))
  {
    hide RecordOf, IndexRange, Holds;
    var earlier, last := Rebuilt(d, index, span, stride, n - 1), RecordOf(d, index, span, stride, n - 1);
    RebuiltLength(d, index, span, stride, n - 1);
    if v < n - 1 {
      RebuiltHolds(d, index, span, stride, n - 1, v);
      HoldsInPrefix(earlier, last, stride, v, RecordOf(d, index, span, stride, v));
    } else {
      HoldsAtEnd(earlier, last, stride, v);
    }
  }

  /** A stream that passes its checks was taken from the buffer rebuilt from it. */
  lemma CheckedIsTaken(d: Draw, index: seq<Byte>, span: seq<Byte>, stride: nat)
    requires IndexRange(d, index) && BaseVertexOk(d, index) && StreamOk(d, index, span, stride)
    ensures TakenFrom(d, index, span, stride, Rebuilt(d, index, span, stride, 0x8000_0000))
  {
    var source := Rebuilt(d, index, span, stride, 0x8000_0000);
    forall c: nat | c < Corners(d)
      ensures Holds(source, stride, ActualIndex(d, index, c), Body(Record(span, Corners(d), stride, c)))
    {
      var v := ActualIndex(d, index, c);
      RebuiltHolds(d, index, span, stride, 0x8000_0000, v);
      RecordIsCorner(d, index, span, stride, c);
    }
    hide Rebuilt, Holds, WitnessOk;
  }

  lemma RecordIsCorner(d: Draw, index: seq<Byte>, span: seq<Byte>, stride: nat, c: nat)
    requires IndexRange(d, index) && BaseVertexOk(d, index) && StreamOk(d, index, span, stride) && c < Corners(d)
    ensures RecordOf(d, index, span, stride, ActualIndex(d, index, c)) == Body(Record(span, Corners(d), stride, c))
  {
    hide WitnessOk, IndexRange, BaseVertexOk;
    var first := CornerOf(d, index, ActualIndex(d, index, c), Corners(d));
    assert first.Some?;
  }

  /** The source buffers an accepted gather stands for. */
  function Source(d: Draw, g: Spans): Spans
    requires GatherOk(d, g)
  {
    Spans(if d.positionGathered then Rebuilt(d, g.index, g.position, d.positionStride, 0x8000_0000) else g.position,
          g.index,
          if d.blendGathered then Rebuilt(d, g.index, g.blend, d.blendStride, 0x8000_0000) else g.blend,
          if d.uvGathered then Rebuilt(d, g.index, g.uv, d.uvStride, 0x8000_0000) else g.uv)
  }

  /** The checks are exact: they accept a gather if and only if it is the gather of some source buffers. */
  lemma AcceptedIffGathered(d: Draw, g: Spans)
    ensures GatherOk(d, g) <==> exists s: Spans :: GatherOf(d, g, s)
  {
    hide TakenFrom, StreamOk, Rebuilt, IndexRange, BaseVertexOk;
    if s: Spans :| GatherOf(d, g, s) {
      GatherPasses(d, g, s);
    }
    if GatherOk(d, g) {
      AcceptedIsGathered(d, g);
    }
  }

  lemma AcceptedIsGathered(d: Draw, g: Spans)
    requires GatherOk(d, g)
    ensures GatherOf(d, g, Source(d, g))
  {
    hide TakenFrom, StreamOk, Rebuilt;
    if d.positionGathered { CheckedIsTaken(d, g.index, g.position, d.positionStride); }
    if d.blendGathered { CheckedIsTaken(d, g.index, g.blend, d.blendStride); }
    if d.uvGathered { CheckedIsTaken(d, g.index, g.uv, d.uvStride); }
  }

  /** Nothing is made up: what a fully gathered draw is reconstructed to is what the plain draw gives over source buffers
      it could have been gathered from; and a gather of no source at all is refused. */
  lemma ReconstructedFromSource<W>(d: Draw, g: Spans, shader: Shader<W>)
    requires StreamsGathered(d, shader)
    ensures if GatherOk(d, g) then Reconstruct(d, g, shader) == Plain(d, Source(d, g), shader)
            else Reconstruct(d, g, shader).None? && forall s: Spans :: !GatherOf(d, g, s)
  {
    hide Plain, Rebuilt, StreamOk, TakenFrom;
    if GatherOk(d, g) {
      AcceptedIsGathered(d, g);
      GatherPreservesPositions(d, g, Source(d, g), shader);
    } else {
      AcceptedIffGathered(d, g);
    }
  }
}
