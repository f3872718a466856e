/** When decoding a gather is right: exactly which draws can be decoded whatever the buffers hold, and what goes wrong
    for the others. */
module GatherExactness {
  import opened Arithmetic
  import opened GatherDecoding
  import opened Wrappers

  /** Gathered streams were taken from the source, the others are the source buffers themselves. */
  ghost predicate Capture(d: Draw, g: Spans, s: Spans) {
    GatherOf(d, g, s) && (!d.blendGathered ==> g.blend == s.blend) && (!d.uvGathered ==> g.uv == s.uv)
  }

  // One capture with the separate blend stream left ungathered

  /** Where corner c belongs, and where the decoded gather puts it: with the blend attributes of vertex number c. */
  function OwnAt<W>(d: Draw, s: Spans, shader: Shader<W>, c: nat): Option<W>
    requires IndexRange(d, s.index) && c < Corners(d)
  {
    Place(d, s, shader, ActualIndex(d, s.index, c))
  }

  function DecodedAt<W>(d: Draw, s: Spans, shader: Shader<W>, c: nat): Option<W>
    requires IndexRange(d, s.index) && c < Corners(d)
  {
    MixedPlace(d, s, shader, ActualIndex(d, s.index, c), c)
  }

  predicate SomeOwnRaises<W>(d: Draw, s: Spans, shader: Shader<W>)
    requires IndexRange(d, s.index)
  {
    exists c: nat | c < Corners(d) :: OwnAt(d, s, shader, c).None?
  }

  predicate SomeDecodedRaises<W>(d: Draw, s: Spans, shader: Shader<W>)
    requires IndexRange(d, s.index)
  {
    exists c: nat | c < Corners(d) :: DecodedAt(d, s, shader, c).None?
  }

  lemma PlainByCorner<W>(d: Draw, s: Spans, shader: Shader<W>)
    requires IndexRange(d, s.index) && shader.globalOk
    ensures Plain(d, s, shader).None? <==> SomeOwnRaises(d, s, shader)
    ensures Plain(d, s, shader).Some? ==> |Plain(d, s, shader).value| == Corners(d)
    ensures Plain(d, s, shader).Some? ==>
              forall c: nat | c < Corners(d) :: OwnAt(d, s, shader, c) == Some(Plain(d, s, shader).value[c])
  {
    if SomeOwnRaises(d, s, shader) {
      var c: nat :| c < Corners(d) && OwnAt(d, s, shader, c).None?;
      assert Place(d, s, shader, ActualIndex(d, s.index, c)).None?;
    } else {
      forall c: nat | c < Corners(d) ensures Place(d, s, shader, ActualIndex(d, s.index, c)).Some? {
        assert OwnAt(d, s, shader, c).Some?;
      }
    }
  }

  /** The decoded draw, corner by corner. */
  lemma DecodedByCorner<W>(d: Draw, g: Spans, s: Spans, shader: Shader<W>, c: nat)
    requires GatherOf(d, g, s) && GatherOk(d, g) && d.positionGathered && c < Corners(d)
    requires d.blendBinding == 1 && !d.blendGathered && g.blend == s.blend
    ensures IndexRange(Normalized(d), Decoded(d, g).index) && Corners(Normalized(d)) == Corners(d)
    ensures OwnAt(Normalized(d), Decoded(d, g), shader, c) == DecodedAt(d, s, shader, c)
  {
    NormalizedIndex(d, c);
    UngatheredBlendReadsByCorner(d, g, s, shader, c);
  }

  lemma DecodedRaises<W>(d: Draw, g: Spans, s: Spans, shader: Shader<W>)
    requires GatherOf(d, g, s) && GatherOk(d, g) && d.positionGathered
    requires d.blendBinding == 1 && !d.blendGathered && g.blend == s.blend
    ensures IndexRange(Normalized(d), Decoded(d, g).index) && Corners(Normalized(d)) == Corners(d)
    ensures SomeOwnRaises(Normalized(d), Decoded(d, g), shader) <==> SomeDecodedRaises(d, s, shader)
  {
    DecodedByCorner(d, g, s, shader, 0);
    forall c: nat | c < Corners(d)
      ensures OwnAt(Normalized(d), Decoded(d, g), shader, c) == DecodedAt(d, s, shader, c)
    {
      DecodedByCorner(d, g, s, shader, c);
    }
    if SomeDecodedRaises(d, s, shader) {
      var c: nat :| c < Corners(d) && DecodedAt(d, s, shader, c).None?;
      assert OwnAt(Normalized(d), Decoded(d, g), shader, c).None?;
    }
  }

  /** One capture is decoded correctly exactly when every corner lands where it belongs, or both readings raise. */
  lemma UngatheredBlendAgreesIff<W>(d: Draw, g: Spans, s: Spans, shader: Shader<W>)
    requires GatherOf(d, g, s) && d.positionGathered && shader.globalOk
    requires d.blendBinding == 1 && !d.blendGathered && g.blend == s.blend
    ensures Reconstruct(d, g, shader) == Plain(d, s, shader) <==>
              || (forall c: nat | c < Corners(d) :: DecodedAt(d, s, shader, c) == OwnAt(d, s, shader, c))
              || (SomeDecodedRaises(d, s, shader) && SomeOwnRaises(d, s, shader))
  {
    GatherPasses(d, g, s);
    DecodedRaises(d, g, s, shader);
    PlainByCorner(d, s, shader);
    PlainByCorner(Normalized(d), Decoded(d, g), shader);
    forall c: nat | c < Corners(d)
      ensures OwnAt(Normalized(d), Decoded(d, g), shader, c) == DecodedAt(d, s, shader, c)
    {
      DecodedByCorner(d, g, s, shader, c);
    }
    if Reconstruct(d, g, shader) != Plain(d, s, shader) {
      SomeCornerDiffers(d, g, s, shader);
    }
  }

  lemma SomeCornerDiffers<W>(d: Draw, g: Spans, s: Spans, shader: Shader<W>)
    requires GatherOf(d, g, s) && d.positionGathered && shader.globalOk
    requires d.blendBinding == 1 && !d.blendGathered && g.blend == s.blend
    requires Reconstruct(d, g, shader) != Plain(d, s, shader)
    ensures exists c: nat | c < Corners(d) :: DecodedAt(d, s, shader, c) != OwnAt(d, s, shader, c)
  {
    GatherPasses(d, g, s);
    NormalizedIndex(d, 0);
    if forall c: nat | c < Corners(d) :: DecodedAt(d, s, shader, c) == OwnAt(d, s, shader, c) {
      forall c: nat | c < Corners(d)
        ensures Place(Normalized(d), Decoded(d, g), shader, ActualIndex(Normalized(d), Decoded(d, g).index, c))
             == Place(d, s, shader, ActualIndex(d, s.index, c))
      {
        DecodedByCorner(d, g, s, shader, c);
        assert DecodedAt(d, s, shader, c) == OwnAt(d, s, shader, c);
      }
      SameCorners(Normalized(d), Decoded(d, g), d, s, shader);
    }
  }

  // Which draws are always decoded correctly

  /** Corner c is vertex number c throughout. */
  predicate OwnPlaces(d: Draw, index: seq<Byte>)
    requires IndexRange(d, index)
  {
    forall c: nat | c < Corners(d) :: ActualIndex(d, index, c) == c
  }

  predicate LayoutOk(format: nat, stride: nat, offset: nat) {
    AttributeSize(format).Some? && stride > 0 && offset + AttributeSize(format).value <= stride
  }

  /** The formats, strides and offsets of the attributes the draw reads are ones the reader accepts. */
  predicate LayoutsOk(d: Draw, bones: bool, weights: bool) {
    var stride := if d.blendBinding == 1 then d.blendStride else d.positionStride;
    && LayoutOk(d.positionFormat, d.positionStride, d.positionOffset)
    && (bones ==> LayoutOk(d.blendIndexFormat, stride, d.blendIndexOffset))
    && (weights ==> LayoutOk(d.blendWeightFormat, stride, d.blendWeightOffset))
  }

  /** A condition on the draw alone, checkable before decoding. */
  predicate Decodable(d: Draw, index: seq<Byte>, bones: bool, weights: bool)
    requires IndexRange(d, index)
  {
    || (d.blendBinding == 1 && (bones || weights) ==> d.blendGathered)
    || OwnPlaces(d, index) || !LayoutsOk(d, bones, weights)
  }

  lemma BadLayoutRaises<W>(d: Draw, s: Spans, shader: Shader<W>, v: int, w: int)
    requires !LayoutsOk(d, shader.bones, shader.weights)
    ensures MixedPlace(d, s, shader, v, w).None?
  {
  }

  /** A decodable draw is decoded correctly from every capture, for every transform. */
  lemma DecodableIsRight<W>(d: Draw, g: Spans, s: Spans, shader: Shader<W>)
    requires Capture(d, g, s) && d.positionGathered && Decodable(d, s.index, shader.bones, shader.weights)
    ensures Reconstruct(d, g, shader) == Plain(d, s, shader)
  {
    if d.blendBinding == 1 && (shader.bones || shader.weights) ==> d.blendGathered {
      GatherPreservesPositions(d, g, s, shader);
    } else if shader.globalOk {
      UngatheredBlendAgreesIff(d, g, s, shader);
      if !OwnPlaces(d, s.index) {
        BadLayoutRaises(d, s, shader, ActualIndex(d, s.index, 0), 0);
        BadLayoutRaises(d, s, shader, ActualIndex(d, s.index, 0), ActualIndex(d, s.index, 0));
        assert DecodedAt(d, s, shader, 0).None? && OwnAt(d, s, shader, 0).None?;
      }
    } else {
      GatherPasses(d, g, s);
    }
  }

  // Every other draw has a capture that is decoded wrongly

  const VERTICES := 0x8000_0000

  /** Every gathered stream has a stride a gather can have. */
  predicate StridesOk(d: Draw) {
    && d.positionStride > 0 && d.positionStride % 4 == 0
    && (d.blendGathered ==> d.blendStride > 0 && d.blendStride % 4 == 0)
    && (d.uvGathered ==> d.uvStride > 0 && d.uvStride % 4 == 0)
  }

  /** A buffer of zeros but for one vertex's record of ones. */
  function Marked(stride: nat, vertex: int): (r: seq<Byte>)
    ensures |r| == VERTICES * stride
  {
    seq(VERTICES * stride, i requires 0 <= i < VERTICES * stride =>
      if vertex * stride <= i < vertex * stride + stride then 1 else 0)
  }

  lemma VertexInside(vertex: nat, stride: nat)
    requires vertex < VERTICES
    ensures 0 <= vertex * stride && vertex * stride + stride <= VERTICES * stride
  {
    StridesApart(vertex, VERTICES, stride);
  }

  /** An attribute of the marked vertex reads ones, one of any other vertex reads zeros. */
  lemma MarkedAttribute(format: nat, stride: nat, offset: nat, vertex: nat, v: nat)
    requires LayoutOk(format, stride, offset) && vertex < VERTICES && v < VERTICES
    ensures var a := Attribute(Marked(stride, vertex), format, stride, offset, v);
      a.Some? && a.value != [] && a.value[0] == if v == vertex then 1 else 0
  {
    VertexInside(v, stride);
    var at := v * stride + offset;
    var size := AttributeSize(format).value;
    assert Attribute(Marked(stride, vertex), format, stride, offset, v) == Some(Marked(stride, vertex)[at..at + size]);
    if v < vertex {
      StridesApart(v, vertex, stride);
    } else if vertex < v {
      StridesApart(vertex, v, stride);
    }
  }

  // Taking a gather

  /** One gather record, written out. */
  function WrittenRecord(raw: nat, vertex: nat, body: seq<Byte>): (r: seq<Byte>)
    requires raw < 0x1_0000_0000 && vertex < VERTICES
    ensures |r| == HEADER + |body|
  {
    FourBytes(raw) + FourBytes(vertex) + FourBytes(1) + FourBytes(0) + body
  }

  lemma WrittenParts(raw: nat, vertex: nat, body: seq<Byte>)
    requires raw < 0x1_0000_0000 && vertex < VERTICES
    ensures var r := WrittenRecord(raw, vertex, body);
      && HeaderWord(r, 0) == raw && HeaderWord(r, 1) == vertex && HeaderWord(r, 2) == 1 && HeaderWord(r, 3) == 0
      && Body(r) == body
  {
    var r := WrittenRecord(raw, vertex, body);
    assert r[0..4] == FourBytes(raw) && r[4..8] == FourBytes(vertex);
    assert r[8..12] == FourBytes(1) && r[12..16] == FourBytes(0);
    LittleOfFour(raw);
    LittleOfFour(vertex);
    LittleOfFour(1);
    LittleOfFour(0);
  }

  function TakenRecord(d: Draw, index: seq<Byte>, source: seq<Byte>, stride: nat, c: nat): (r: seq<Byte>)
    requires IndexRange(d, index) && BaseVertexOk(d, index) && c < Corners(d) && |source| == VERTICES * stride
    ensures |r| == HEADER + stride
  {
    var v := ActualIndex(d, index, c);
    VertexInside(v, stride);
    RawIsSmall(d, index, c);
    WrittenRecord(RawIndex(d, index, c), v, source[v * stride..v * stride + stride])
  }

  lemma {:induction false} LittleIsSmall(bytes: seq<Byte>)
    requires |bytes| <= 4
    ensures |bytes| == 0 ==> Little(bytes) == 0
    ensures |bytes| == 1 ==> Little(bytes) < 0x100
    ensures |bytes| == 2 ==> Little(bytes) < 0x1_0000
    ensures |bytes| == 3 ==> Little(bytes) < 0x100_0000
    ensures Little(bytes) < 0x1_0000_0000
  {
    if bytes != [] {
      LittleIsSmall(bytes[1..]);
    }
  }

  lemma RawIsSmall(d: Draw, index: seq<Byte>, c: nat)
    requires IndexRange(d, index) && BaseVertexOk(d, index) && c < Corners(d)
    ensures RawIndex(d, index, c) < 0x1_0000_0000
  {
    if d.indexed {
      IndexInRange(d, index, c);
      var at := (d.firstIndex + c) * IndexBytes(d);
      LittleIsSmall(index[at..at + IndexBytes(d)]);
    } else {
      assert ActualIndex(d, index, c) < VERTICES;
    }
  }

  function Taken(d: Draw, index: seq<Byte>, source: seq<Byte>, stride: nat, n: nat): (r: seq<Byte>)
    requires IndexRange(d, index) && BaseVertexOk(d, index) && n <= Corners(d) && |source| == VERTICES * stride
  {
    if n == 0 then [] else Taken(d, index, source, stride, n - 1) + TakenRecord(d, index, source, stride, n - 1)
  }

  lemma {:induction false} TakenLength(d: Draw, index: seq<Byte>, source: seq<Byte>, stride: nat, n: nat)
    requires IndexRange(d, index) && BaseVertexOk(d, index) && n <= Corners(d) && |source| == VERTICES * stride
    ensures |Taken(d, index, source, stride, n)| == n * (HEADER + stride)
  {
    hide IndexRange, BaseVertexOk, TakenRecord;
    if n > 0 {
      TakenLength(d, index, source, stride, n - 1);
      NextStride(n - 1, HEADER + stride);
      assert |Taken(d, index, source, stride, n)| == |Taken(d, index, source, stride, n - 1)| + (HEADER + stride);
    }
  }

  lemma {:induction false} TakenAt(d: Draw, index: seq<Byte>, source: seq<Byte>, stride: nat, n: nat, c: nat)
    requires IndexRange(d, index) && BaseVertexOk(d, index) && c < n <= Corners(d) && |source| == VERTICES * stride
    ensures Holds(Taken(d, index, source, stride, n), HEADER + stride, c, TakenRecord(d, index, source, stride, c))
  {
    hide IndexRange, BaseVertexOk, TakenRecord, Holds;
    var earlier, last := Taken(d, index, source, stride, n - 1), TakenRecord(d, index, source, stride, n - 1);
    TakenLength(d, index, source, stride, n - 1);
    if c < n - 1 {
      TakenAt(d, index, source, stride, n - 1, c);
      HoldsInPrefix(earlier, last, HEADER + stride, c, TakenRecord(d, index, source, stride, c));
    } else {
      HoldsAtEnd(earlier, last, HEADER + stride, c);
    }
  }

  lemma TakenHeader(d: Draw, index: seq<Byte>, source: seq<Byte>, stride: nat, c: nat)
    requires IndexRange(d, index) && BaseVertexOk(d, index) && c < Corners(d) && |source| == VERTICES * stride
    ensures var r := TakenRecord(d, index, source, stride, c);
      && HeaderWord(r, 0) == RawIndex(d, index, c) && HeaderWord(r, 1) == ActualIndex(d, index, c)
      && HeaderWord(r, 2) == 1 && HeaderWord(r, 3) == 0
      && Holds(source, stride, ActualIndex(d, index, c), Body(r))
  {
    var v := ActualIndex(d, index, c);
    RawIsSmall(d, index, c);
    VertexInside(v, stride);
    WrittenParts(RawIndex(d, index, c), v, source[v * stride..v * stride + stride]);
  }

  lemma TakenIsFaithful(d: Draw, index: seq<Byte>, source: seq<Byte>, stride: nat)
    requires IndexRange(d, index) && BaseVertexOk(d, index) && |source| == VERTICES * stride
    requires stride > 0 && stride % 4 == 0
    ensures TakenFrom(d, index, Taken(d, index, source, stride, Corners(d)), stride, source)
  {
    var n := Corners(d);
    var span := Taken(d, index, source, stride, n);
    TakenLength(d, index, source, stride, n);
    forall c: nat | c < n
      ensures WitnessOk(d, index, span, stride, c)
      ensures Holds(source, stride, ActualIndex(d, index, c), Body(Record(span, n, stride, c)))
    {
      TakenAt(d, index, source, stride, n, c);
      TakenHeader(d, index, source, stride, c);
    }
  }

  // The wrong capture

  /** A transform that shows the blend attributes it was given. */
  function Showing(bones: bool, weights: bool): Shader<seq<Byte>> {
    Shader(true, bones, weights, (p: seq<Byte>, b: seq<Byte>, w: seq<Byte>) => Some(b + w))
  }

  lemma WrongCapture(d: Draw, index: seq<Byte>, bones: bool, weights: bool, c: nat) returns (g: Spans, s: Spans)
    requires IndexRange(d, index) && BaseVertexOk(d, index) && d.positionGathered && StridesOk(d)
    requires d.blendBinding == 1 && (bones || weights) && !d.blendGathered && LayoutsOk(d, bones, weights)
    requires c < Corners(d) && ActualIndex(d, index, c) != c
    ensures Capture(d, g, s) && s.index == index
    ensures Reconstruct(d, g, Showing(bones, weights)) != Plain(d, s, Showing(bones, weights))
  {
    var v := ActualIndex(d, index, c);
    s := Spans(Marked(d.positionStride, 0), index, Marked(d.blendStride, v), Marked(d.uvStride, 0));
    g := Spans(Taken(d, index, s.position, d.positionStride, Corners(d)), index, s.blend,
               if d.uvGathered then Taken(d, index, s.uv, d.uvStride, Corners(d)) else s.uv);
    TakenIsFaithful(d, index, s.position, d.positionStride);
    if d.uvGathered {
      TakenIsFaithful(d, index, s.uv, d.uvStride);
    }
    ShowsTheMark(d, s, bones, weights, c);
    UngatheredBlendAgreesIff(d, g, s, Showing(bones, weights));
    assert DecodedAt(d, s, Showing(bones, weights), c) != OwnAt(d, s, Showing(bones, weights), c);
  }

  lemma ReadsTheMark(d: Draw, s: Spans, bones: bool, weights: bool, vertex: nat, v: nat, w: nat)
    requires LayoutsOk(d, bones, weights) && d.blendBinding == 1 && vertex < VERTICES && v < VERTICES && w < VERTICES
    requires s.position == Marked(d.positionStride, 0) && s.blend == Marked(d.blendStride, vertex) && (bones || weights)
    ensures var shown := MixedPlace(d, s, Showing(bones, weights), v, w);
      shown.Some? && shown.value != [] && shown.value[0] == if w == vertex then 1 else 0
  {
    MarkedAttribute(d.positionFormat, d.positionStride, d.positionOffset, 0, v);
    if bones {
      MarkedAttribute(d.blendIndexFormat, d.blendStride, d.blendIndexOffset, vertex, w);
    }
    if weights {
      MarkedAttribute(d.blendWeightFormat, d.blendStride, d.blendWeightOffset, vertex, w);
    }
  }

  lemma ShowsTheMark(d: Draw, s: Spans, bones: bool, weights: bool, c: nat)
    requires IndexRange(d, s.index) && BaseVertexOk(d, s.index) && c < Corners(d)
    requires ActualIndex(d, s.index, c) != c && LayoutsOk(d, bones, weights) && d.blendBinding == 1 && (bones || weights)
    requires s.position == Marked(d.positionStride, 0) && s.blend == Marked(d.blendStride, ActualIndex(d, s.index, c))
    ensures DecodedAt(d, s, Showing(bones, weights), c) != OwnAt(d, s, Showing(bones, weights), c)
    ensures forall e: nat | e < Corners(d) ::
              OwnAt(d, s, Showing(bones, weights), e).Some? && DecodedAt(d, s, Showing(bones, weights), e).Some?
  {
    var vertex := ActualIndex(d, s.index, c);
    forall e: nat | e < Corners(d)
      ensures OwnAt(d, s, Showing(bones, weights), e).Some? && DecodedAt(d, s, Showing(bones, weights), e).Some?
    {
      var v := ActualIndex(d, s.index, e);
      ReadsTheMark(d, s, bones, weights, vertex, v, v);
      ReadsTheMark(d, s, bones, weights, vertex, v, e);
    }
    ReadsTheMark(d, s, bones, weights, vertex, vertex, vertex);
    ReadsTheMark(d, s, bones, weights, vertex, vertex, c);
  }

  /** Every capture of the draw is decoded correctly under this transform. */
  ghost predicate AlwaysRight<W(!new)>(d: Draw, index: seq<Byte>, shader: Shader<W>) {
    forall g: Spans, s: Spans :: Capture(d, g, s) && s.index == index ==> Reconstruct(d, g, shader) == Plain(d, s, shader)
  }

  /** Some capture of the draw over these indices exists. */
  predicate Gatherable(d: Draw, index: seq<Byte>) {
    IndexRange(d, index) && BaseVertexOk(d, index) && StridesOk(d)
  }

  lemma CaptureIsGatherable(d: Draw, g: Spans, s: Spans)
    requires Capture(d, g, s) && d.positionGathered
    ensures Gatherable(d, s.index)
  {
  }

  /** A gathered draw is decoded correctly from every capture exactly when it is decodable, or has no capture at all. */
  lemma AlwaysRightIff(d: Draw, index: seq<Byte>, bones: bool, weights: bool)
    requires d.positionGathered
    ensures AlwaysRight(d, index, Showing(bones, weights))
            <==> !Gatherable(d, index) || Decodable(d, index, bones, weights)
  {
    hide Capture, Reconstruct, Plain, Showing;
    if !Gatherable(d, index) || Decodable(d, index, bones, weights) {
      forall g: Spans, s: Spans | Capture(d, g, s) && s.index == index
        ensures Reconstruct(d, g, Showing(bones, weights)) == Plain(d, s, Showing(bones, weights))
      {
        CaptureIsGatherable(d, g, s);
        ShownAttributes(bones, weights);
        DecodableIsRight(d, g, s, Showing(bones, weights));
      }
    } else {
      var c: nat :| c < Corners(d) && ActualIndex(d, index, c) != c;
      var g, s := WrongCapture(d, index, bones, weights, c);
    }
  }

  lemma ShownAttributes(bones: bool, weights: bool)
    ensures Showing(bones, weights).bones == bones && Showing(bones, weights).weights == weights
  {
  }

  // A small one

  function OneVertexDraw(): Draw {
    Draw(false, 0, 0, 0, 0, 1, 1, 4, 0, 100, 1, 4, 0, 0, 0, 41, 0, true, false, false)
  }

  function OneVertexSource(): Spans {
    Spans([0, 0, 0, 0, 0, 0, 0, 0], [], [1, 1, 1, 1, 2, 2, 2, 2], [])
  }

  function OneVertexGather(): Spans {
    Spans([1, 0, 0, 0] + [1, 0, 0, 0] + [1, 0, 0, 0] + [0, 0, 0, 0] + [0, 0, 0, 0], [], [1, 1, 1, 1, 2, 2, 2, 2], [])
  }

  lemma OneRecordTaken(d: Draw, index: seq<Byte>, record: seq<Byte>, stride: nat, source: seq<Byte>)
    requires IndexRange(d, index) && BaseVertexOk(d, index) && Corners(d) == 1
    requires stride > 0 && stride % 4 == 0 && |record| == HEADER + stride
    requires HeaderWord(record, 0) == RawIndex(d, index, 0) && HeaderWord(record, 1) == ActualIndex(d, index, 0)
    requires HeaderWord(record, 2) == 1 && HeaderWord(record, 3) == 0
    requires Holds(source, stride, ActualIndex(d, index, 0), Body(record))
    ensures TakenFrom(d, index, record, stride, source)
  {
    assert Record(record, 1, stride, 0) == record;
  }

  lemma OneVertexCapture()
    ensures Capture(OneVertexDraw(), OneVertexGather(), OneVertexSource())
  {
    var d, g, s := OneVertexDraw(), OneVertexGather(), OneVertexSource();
    var r := g.position;
    LittleOfBytes(r[0..4]);
    LittleOfBytes(r[4..8]);
    LittleOfBytes(r[8..12]);
    LittleOfBytes(r[12..16]);
    assert s.position[4..8] == [0, 0, 0, 0];
    OneRecordTaken(d, s.index, g.position, 4, s.position);
  }

  lemma OneCornerReadings<W>(d: Draw, g: Spans, s: Spans, shader: Shader<W>, own: W, other: W)
    requires Capture(d, g, s) && d.positionGathered && d.blendBinding == 1 && !d.blendGathered && shader.globalOk
    requires Corners(d) == 1 && OwnAt(d, s, shader, 0) == Some(own) && DecodedAt(d, s, shader, 0) == Some(other)
    ensures Plain(d, s, shader) == Some([own]) && Reconstruct(d, g, shader) == Some([other])
  {
    GatherPasses(d, g, s);
    DecodedByCorner(d, g, s, shader, 0);
    OneCorner(d, s, shader, own);
    OneCorner(Normalized(d), Decoded(d, g), shader, other);
  }

  lemma OneCorner<W>(d: Draw, s: Spans, shader: Shader<W>, place: W)
    requires IndexRange(d, s.index) && shader.globalOk && Corners(d) == 1 && OwnAt(d, s, shader, 0) == Some(place)
    ensures Plain(d, s, shader) == Some([place])
  {
    PlainByCorner(d, s, shader);
    assert OwnAt(d, s, shader, 0).Some?;
    assert Plain(d, s, shader).value == [place];
  }

  lemma ShowsBones(d: Draw, s: Spans, v: int, w: int, position: seq<Byte>, bones: seq<Byte>)
    requires d.blendBinding == 1 && PositionOf(d, s, v) == Some(position)
    requires Attribute(s.blend, d.blendIndexFormat, d.blendStride, d.blendIndexOffset, w) == Some(bones)
    ensures MixedPlace(d, s, Showing(true, false), v, w) == Some(bones)
  {
    var none: seq<Byte> := [];
    var shader := Showing(true, false);
    assert WeightsOf(d, s, shader, v, w) == Some(none) && BonesOf(d, s, shader, v, w) == Some(bones);
    assert shader.place(position, bones, none) == Some(bones + none);
    assert bones + none == bones;
  }

  /** The draw reads one corner at vertex 1; its bone indices are in a separate ungathered stream. */
  lemma OneVertexScene() returns (d: Draw, g: Spans, s: Spans)
    ensures Capture(d, g, s) && d.positionGathered && d.blendBinding == 1 && !d.blendGathered && Corners(d) == 1
    ensures d == OneVertexDraw() && g == OneVertexGather() && s == OneVertexSource()
    ensures OwnAt(d, s, Showing(true, false), 0) == Some([2, 2, 2, 2])
    ensures DecodedAt(d, s, Showing(true, false), 0) == Some([1, 1, 1, 1])
  {
    d, g, s := OneVertexDraw(), OneVertexGather(), OneVertexSource();
    hide GatherOf, OneVertexGather;
    OneVertexCapture();
    assert ActualIndex(d, s.index, 0) == 1;
    assert s.position[4..8] == [0, 0, 0, 0] && s.blend[4..8] == [2, 2, 2, 2] && s.blend[0..4] == [1, 1, 1, 1];
    ShowsBones(d, s, 1, 1, [0, 0, 0, 0], [2, 2, 2, 2]);
    ShowsBones(d, s, 1, 0, [0, 0, 0, 0], [1, 1, 1, 1]);
  }

  /** From this capture the plain draw reads 2,2,2,2 and the decoded gather 1,1,1,1. */
  lemma UngatheredBlendWitness() returns (d: Draw, g: Spans, s: Spans)
    ensures d == OneVertexDraw() && g == OneVertexGather() && s == OneVertexSource() && Capture(d, g, s)
    ensures Plain(d, s, Showing(true, false)) == Some([[2, 2, 2, 2]])
    ensures Reconstruct(d, g, Showing(true, false)) == Some([[1, 1, 1, 1]])
  {
    d, g, s := OneVertexScene();
    hide GatherOf, Capture, Reconstruct, Plain, OwnAt, DecodedAt;
    OneCornerReadings(d, g, s, Showing(true, false), [2, 2, 2, 2], [1, 1, 1, 1]);
  }
}
