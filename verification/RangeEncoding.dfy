/** Encoding skinned vertices range by range into one shared output buffer. The per-vertex transform is a parameter of
    fixed record length; what is shown is that the split into ranges does not matter. */
module RangeEncoding {
  import opened Arithmetic
  import opened Coverage
  import opened Wrappers

  const FVF_STRIDES: seq<nat> := [24, 28, 32, 36, 40, 44]
  const PALETTE_FLOATS := 12

  /** render(slot, vertex) is the packed record of one vertex under one palette row; rowLengths are the palette rows'. */
  datatype Inputs = Inputs(vertexCount: nat, groupSlots: seq<int>, rowLengths: seq<nat>, format: int,
                           render: (nat, nat) -> seq<Byte>)

  predicate FormatOk(x: Inputs) {
    0 <= x.format < |FVF_STRIDES|
  }

  function Stride(x: Inputs): nat
    requires FormatOk(x)
  {
    FVF_STRIDES[x.format]
  }

  ghost predicate FixedLength(x: Inputs) {
    FormatOk(x) ==> forall slot: nat, vertex: nat :: |x.render(slot, vertex)| == Stride(x)
  }

  predicate Encodable(x: Inputs, vertex: int) {
    && FormatOk(x) && 0 <= vertex < x.vertexCount && vertex < |x.groupSlots|
    && 0 <= x.groupSlots[vertex] < |x.rowLengths| && x.rowLengths[x.groupSlots[vertex]] == PALETTE_FLOATS
  }

  /** One vertex's record; None where the source raises. */
  function EncodeVertex(x: Inputs, vertex: int): (r: Option<seq<Byte>>)
    requires FixedLength(x)
    ensures r.Some? <==> Encodable(x, vertex)
    ensures r.Some? ==> |r.value| == Stride(x)
  {
    if Encodable(x, vertex) then Some(x.render(x.groupSlots[vertex], vertex)) else None
  }

  // Records in the buffer

  predicate Fits(dest: seq<Byte>, n: nat, stride: nat) {
    n * stride <= |dest|
  }

  function Slot(dest: seq<Byte>, n: nat, stride: nat, v: nat): (r: seq<Byte>)
    requires Fits(dest, n, stride) && v < n
    ensures |r| == stride
  {
    StridesApart(v, n, stride);
    dest[v * stride..v * stride + stride]
  }

  function WriteRecord(dest: seq<Byte>, n: nat, stride: nat, v: nat, record: seq<Byte>): (r: seq<Byte>)
    requires Fits(dest, n, stride) && v < n && |record| == stride
    ensures |r| == |dest|
  {
    StridesApart(v, n, stride);
    dest[..v * stride] + record + dest[v * stride + stride..]
  }

  lemma SlotAfterWrite(dest: seq<Byte>, n: nat, stride: nat, v: nat, record: seq<Byte>, w: nat)
    requires Fits(dest, n, stride) && v < n && w < n && |record| == stride
    ensures Slot(WriteRecord(dest, n, stride, v, record), n, stride, w) == if w == v then record else Slot(dest, n, stride, w)
  {
    StridesApart(v, n, stride);
    StridesApart(w, n, stride);
    if w < v {
      StridesApart(w, v, stride);
    } else if v < w {
      StridesApart(v, w, stride);
    }
  }

  lemma TailAfterWrite(dest: seq<Byte>, n: nat, stride: nat, v: nat, record: seq<Byte>)
    requires Fits(dest, n, stride) && v < n && |record| == stride
    ensures WriteRecord(dest, n, stride, v, record)[n * stride..] == dest[n * stride..]
  {
    StridesApart(v, n, stride);
  }

  lemma {:induction false} SameSlotsSamePrefix(a: seq<Byte>, b: seq<Byte>, n: nat, stride: nat, k: nat)
    requires Fits(a, n, stride) && Fits(b, n, stride) && k <= n
    requires forall v: nat | v < n :: Slot(a, n, stride, v) == Slot(b, n, stride, v)
    ensures k * stride <= n * stride && a[..k * stride] == b[..k * stride]
  {
    if k < n {
      StridesApart(k, n, stride);
    }
    if k > 0 {
      SameSlotsSamePrefix(a, b, n, stride, k - 1);
      StridesApart(k - 1, k, stride);
      var m := (k - 1) * stride;
      assert k * stride == m + stride;
      assert a[..m + stride] == a[..m] + Slot(a, n, stride, k - 1);
      assert b[..m + stride] == b[..m] + Slot(b, n, stride, k - 1);
    }
  }

  /** A buffer is determined by its records and what lies behind them. */
  lemma SlotsDetermine(a: seq<Byte>, b: seq<Byte>, n: nat, stride: nat)
    requires Fits(a, n, stride) && Fits(b, n, stride)
    requires forall v: nat | v < n :: Slot(a, n, stride, v) == Slot(b, n, stride, v)
    requires a[n * stride..] == b[n * stride..]
    ensures a == b
  {
    SameSlotsSamePrefix(a, b, n, stride, n);
    assert a == a[..n * stride] + a[n * stride..];
    assert b == b[..n * stride] + b[n * stride..];
  }

  // Encoding a range

  ghost predicate Ready(x: Inputs, dest: seq<Byte>) {
    FormatOk(x) && FixedLength(x) && Fits(dest, x.vertexCount, Stride(x))
  }

  /** The record of one vertex as it stands in the buffer. */
  ghost function RecordAt(x: Inputs, dest: seq<Byte>, v: nat): seq<Byte>
    requires Ready(x, dest) && v < x.vertexCount
  {
    Slot(dest, x.vertexCount, Stride(x), v)
  }

  /** What the buffer holds behind the records. */
  ghost function Tail(x: Inputs, dest: seq<Byte>): seq<Byte>
    requires Ready(x, dest)
  {
    dest[x.vertexCount * Stride(x)..]
  }

  ghost predicate AllEncodable(x: Inputs, first: nat, stop: nat) {
    forall v | first <= v < stop :: Encodable(x, v)
  }

  /** The buffer once the records first .. stop - 1 are written, in that order. */
  ghost function Written(x: Inputs, dest: seq<Byte>, first: nat, stop: nat): (r: seq<Byte>)
    requires Ready(x, dest) && first <= stop <= x.vertexCount && AllEncodable(x, first, stop)
    ensures |r| == |dest| && Ready(x, r)
  {
    if stop == first then dest
    else WriteRecord(Written(x, dest, first, stop - 1), x.vertexCount, Stride(x), stop - 1, EncodeVertex(x, stop - 1).value)
  }

  /** The first vertex of the range that cannot be encoded, or its end. */
  function FirstBad(x: Inputs, first: nat, stop: nat): (bad: nat)
    requires first <= stop
    ensures first <= bad <= stop && AllEncodable(x, first, bad)
    ensures bad < stop ==> !Encodable(x, bad)
    decreases stop - first
  {
    if first == stop || !Encodable(x, first) then first else FirstBad(x, first + 1, stop)
  }

  predicate RangeAccepted(x: Inputs, first: int, count: int, length: nat) {
    FormatOk(x) && first >= 0 && count > 0 && first + count <= x.vertexCount && length >= x.vertexCount * Stride(x)
  }

  method PutRecord(destination: array<Byte>, n: nat, stride: nat, v: nat, record: seq<Byte>)
    requires Fits(destination[..], n, stride) && v < n && |record| == stride
    modifies destination
    ensures destination[..] == WriteRecord(old(destination[..]), n, stride, v, record)
  {
    StridesApart(v, n, stride);
    var begin := v * stride;
    for i := 0 to stride
      invariant forall j | 0 <= j < destination.Length ::
          destination[j] == if begin <= j < begin + i then record[j - begin] else old(destination[j])
    {
      destination[begin + i] := record[i];
    }
  }

  /** The stride's worth of bytes at place v is this record. */
  predicate HasRecord(bytes: seq<Byte>, stride: nat, v: nat, record: seq<Byte>) {
    0 <= v * stride && v * stride + stride <= |bytes| && bytes[v * stride..v * stride + stride] == record
  }

  /** The records first .. stop - 1 stand in the buffer, each at its place, and every other byte is as it was. */
  ghost predicate Encoded(x: Inputs, before: seq<Byte>, after: seq<Byte>, first: nat, stop: nat)
    requires FormatOk(x)
  {
    && |after| == |before|
    && (forall v: nat | first <= v < stop ::
          Encodable(x, v) && HasRecord(after, FVF_STRIDES[x.format], v, x.render(x.groupSlots[v], v)))
    && (forall b | 0 <= b < |before| && !(first * FVF_STRIDES[x.format] <= b < stop * FVF_STRIDES[x.format]) ::
          after[b] == before[b])
  }

  lemma {:induction false} WrittenElsewhere(x: Inputs, dest: seq<Byte>, first: nat, stop: nat, b: nat)
    requires Ready(x, dest) && first <= stop <= x.vertexCount && AllEncodable(x, first, stop)
    requires b < |dest| && !(first * Stride(x) <= b < stop * Stride(x))
    ensures Written(x, dest, first, stop)[b] == dest[b]
  {
    if first < stop {
      hide Encodable, FixedLength;
      var v, stride := stop - 1, Stride(x);
      NextStride(v, stride);
      ScaledBy(first, v, stride);
      WrittenElsewhere(x, dest, first, v, b);
      WriteElsewhere(Written(x, dest, first, v), x.vertexCount, stride, v, EncodeVertex(x, v).value, b);
    }
  }

  lemma WriteElsewhere(dest: seq<Byte>, n: nat, stride: nat, v: nat, record: seq<Byte>, b: nat)
    requires Fits(dest, n, stride) && v < n && |record| == stride
    requires b < |dest| && !(v * stride <= b < v * stride + stride)
    ensures WriteRecord(dest, n, stride, v, record)[b] == dest[b]
  {
    StridesApart(v, n, stride);
  }

  lemma WrittenIsEncoded(x: Inputs, dest: seq<Byte>, first: nat, stop: nat)
    requires Ready(x, dest) && first <= stop <= x.vertexCount && AllEncodable(x, first, stop)
    ensures Encoded(x, dest, Written(x, dest, first, stop), first, stop)
  {
    var after, stride := Written(x, dest, first, stop), Stride(x);
    WrittenSlots(x, dest, first, stop);
    hide Written;
    forall v: nat | first <= v < stop ensures HasRecord(after, stride, v, x.render(x.groupSlots[v], v)) {
      assert Encodable(x, v) && RecordAt(x, after, v) == EncodeVertex(x, v).value;
      StridesApart(v, x.vertexCount, stride);
    }
    forall b: nat | b < |dest| && !(first * stride <= b < stop * stride) ensures after[b] == dest[b] {
      WrittenElsewhere(x, dest, first, stop, b);
    }
  }

  /** Writes the range's records in place, and stops at the first vertex that cannot be encoded: those before it stand at
      their places, and no other byte has changed. */
  method EncodeRange(x: Inputs, first: int, count: int, destination: array<Byte>) returns (ok: bool)
    requires FixedLength(x)
    modifies destination
    ensures ok <==> RangeAccepted(x, first, count, destination.Length) && AllEncodable(x, first, first + count)
    ensures !RangeAccepted(x, first, count, destination.Length) ==> destination[..] == old(destination[..])
    ensures RangeAccepted(x, first, count, destination.Length) ==>
              destination[..] == Written(x, old(destination[..]), first, FirstBad(x, first, first + count))
    ensures RangeAccepted(x, first, count, destination.Length) ==>
              Encoded(x, old(destination[..]), destination[..], first, FirstBad(x, first, first + count))
  {
    hide Encoded, Encodable, WriteRecord;
    if !RangeAccepted(x, first, count, destination.Length) {
      return false;
    }
    ghost var before := destination[..];
    ghost var bad := FirstBad(x, first, first + count);
    WrittenIsEncoded(x, before, first, bad);
    for vertex := first to first + count
      invariant vertex <= bad
      invariant destination[..] == Written(x, before, first, vertex)
    {
      var record := EncodeVertex(x, vertex);
      if record.None? {
        return false;
      }
      PutRecord(destination, x.vertexCount, Stride(x), vertex, record.value);
    }
    return true;
  }

  // The split does not matter

  lemma WriteOne(x: Inputs, dest: seq<Byte>, v: nat)
    requires Ready(x, dest) && v < x.vertexCount && Encodable(x, v)
    ensures var after := WriteRecord(dest, x.vertexCount, Stride(x), v, EncodeVertex(x, v).value);
      && Ready(x, after) && Tail(x, after) == Tail(x, dest)
      && forall w: nat | w < x.vertexCount ::
           RecordAt(x, after, w) == if w == v then EncodeVertex(x, v).value else RecordAt(x, dest, w)
  {
    var n, stride, record := x.vertexCount, Stride(x), EncodeVertex(x, v).value;
    TailAfterWrite(dest, n, stride, v, record);
    forall w: nat | w < n
      ensures Slot(WriteRecord(dest, n, stride, v, record), n, stride, w) == if w == v then record else Slot(dest, n, stride, w)
    {
      SlotAfterWrite(dest, n, stride, v, record, w);
    }
  }

  lemma {:induction false} WrittenSlots(x: Inputs, dest: seq<Byte>, first: nat, stop: nat)
    requires Ready(x, dest) && first <= stop <= x.vertexCount && AllEncodable(x, first, stop)
    ensures Tail(x, Written(x, dest, first, stop)) == Tail(x, dest)
    ensures forall w: nat | w < x.vertexCount ::
              RecordAt(x, Written(x, dest, first, stop), w)
              == if first <= w < stop then EncodeVertex(x, w).value else RecordAt(x, dest, w)
  {
    if first < stop {
      WrittenSlots(x, dest, first, stop - 1);
      WriteOne(x, Written(x, dest, first, stop - 1), stop - 1);
    }
  }

  ghost predicate AllInBounds(ranges: seq<Range>, n: nat) {
    forall k | 0 <= k < |ranges| :: InBounds(ranges[k], n)
  }

  /** The buffer after each range has been written in turn. */
  ghost function WrittenAll(x: Inputs, dest: seq<Byte>, ranges: seq<Range>): (r: seq<Byte>)
    requires Ready(x, dest) && AllInBounds(ranges, x.vertexCount) && AllEncodable(x, 0, x.vertexCount)
    ensures |r| == |dest| && Ready(x, r)
  {
    if ranges == [] then dest
    else
      var last := ranges[|ranges| - 1];
      Written(x, WrittenAll(x, dest, ranges[..|ranges| - 1]), last.first, last.End())
  }

  lemma {:induction false} WrittenAllSlots(x: Inputs, dest: seq<Byte>, ranges: seq<Range>)
    requires Ready(x, dest) && AllInBounds(ranges, x.vertexCount) && AllEncodable(x, 0, x.vertexCount)
    ensures Tail(x, WrittenAll(x, dest, ranges)) == Tail(x, dest)
    ensures forall w: nat | w < x.vertexCount ::
              RecordAt(x, WrittenAll(x, dest, ranges), w)
              == if Cover(ranges, w) > 0 then EncodeVertex(x, w).value else RecordAt(x, dest, w)
  {
    if ranges != [] {
      var n := |ranges| - 1;
      WrittenAllSlots(x, dest, ranges[..n]);
      WrittenSlots(x, WrittenAll(x, dest, ranges[..n]), ranges[n].first, ranges[n].End());
    }
  }

  /** Ranges that together hold every vertex, in any order and of any size, write the bytes of one sequential pass. */
  lemma AnySplitIsOnePass(x: Inputs, dest: seq<Byte>, ranges: seq<Range>)
    requires Ready(x, dest) && AllInBounds(ranges, x.vertexCount) && AllEncodable(x, 0, x.vertexCount)
    requires forall v | 0 <= v < x.vertexCount :: Cover(ranges, v) > 0
    ensures WrittenAll(x, dest, ranges) == Written(x, dest, 0, x.vertexCount)
  {
    WrittenAllSlots(x, dest, ranges);
    WrittenSlots(x, dest, 0, x.vertexCount);
    SameRecordsSameBuffer(x, WrittenAll(x, dest, ranges), Written(x, dest, 0, x.vertexCount));
  }

  lemma SameRecordsSameBuffer(x: Inputs, a: seq<Byte>, b: seq<Byte>)
    requires Ready(x, a) && Ready(x, b) && Tail(x, a) == Tail(x, b)
    requires forall v: nat | v < x.vertexCount :: RecordAt(x, a, v) == RecordAt(x, b, v)
    ensures a == b
  {
    var n, stride := x.vertexCount, Stride(x);
    forall v: nat | v < n ensures Slot(a, n, stride, v) == Slot(b, n, stride, v) {
      assert RecordAt(x, a, v) == RecordAt(x, b, v);
    }
    SlotsDetermine(a, b, n, stride);
  }

  lemma CoversInBounds(ranges: seq<Range>, n: nat)
    requires ExactlyCovers(ranges, n)
    ensures AllInBounds(ranges, n) && forall v | 0 <= v < n :: Cover(ranges, v) > 0
  {
  }

  /** The workers' loop: with an exact coverage and encodable inputs the buffer ends as one pass leaves it. */
  method EncodeRanges(x: Inputs, ranges: seq<Range>, destination: array<Byte>) returns (ok: bool)
    requires FixedLength(x) && FormatOk(x) && Fits(destination[..], x.vertexCount, Stride(x))
    requires ExactlyCovers(ranges, x.vertexCount) && AllEncodable(x, 0, x.vertexCount)
    modifies destination
    ensures ok && destination[..] == Written(x, old(destination[..]), 0, x.vertexCount)
    ensures Encoded(x, old(destination[..]), destination[..], 0, x.vertexCount)
  {
    hide Encoded, Encodable, ExactlyCovers, Written;
    ghost var before := destination[..];
    CoversInBounds(ranges, x.vertexCount);
    ok := true;
    for k := 0 to |ranges|
      invariant ok && destination[..] == WrittenAll(x, before, ranges[..k])
    {
      assert ranges[..k + 1][..k] == ranges[..k];
      ok := EncodeRange(x, ranges[k].first, ranges[k].count, destination);
    }
    assert ranges[..|ranges|] == ranges;
    AnySplitIsOnePass(x, before, ranges);
    WrittenIsEncoded(x, before, 0, x.vertexCount);
  }
}
