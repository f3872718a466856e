/** The layout of a captured input file, and the selection of a frame window from it: the chosen batches are copied into
    a new payload and their offsets rebased. */
module EvidenceSelection {
  import opened Wrappers

  const SLOT_BYTES := 262144
  const MAX_DRAWS := 128
  const MAX_SLOTS := 576

  datatype Span = Span(status: nat, offset: nat, bytes: nat)

  datatype Draw = Draw(index: nat, words: seq<nat>, provenance: seq<nat>, worldMatrixBits: seq<nat>, spans: seq<Span>)

  datatype Batch = Batch(id: nat, frame: string, fileOffset: nat, originalFileOffset: Option<nat>, bytes: nat,
                         gpuComplete: bool, fenceValue: nat, observedValue: nat, eligible: int, omitted: int,
                         draws: seq<Draw>)

  datatype Header = Header(schema: nat, rootCauseReady: bool, slots: nat, bytesPerSlot: nat, drawsPerSlot: nat,
                           maxSlots: Option<nat>)

  datatype Inputs = Inputs(header: Header, binaryBytes: nat, batches: seq<Batch>)

  datatype Selection = Selection(inputs: Inputs, payload: seq<Byte>)

  // The layout the input reader demands

  function FileEnd(batches: seq<Batch>): nat {
    if batches == [] then 0 else FileEnd(batches[..|batches| - 1]) + batches[|batches| - 1].bytes
  }

  /** A copied span of a completed batch lies inside the batch. */
  predicate SpanOk(b: Batch, s: Span) {
    && s.status <= 7 && s.offset <= SLOT_BYTES
    && (s.status == 1 && b.gpuComplete ==> 0 < s.bytes <= b.bytes && s.offset <= b.bytes - s.bytes)
  }

  predicate U32(n: nat) {
    n < 0x1_0000_0000
  }

  predicate U64(n: nat) {
    n < 0x1_0000_0000_0000_0000
  }

  predicate RecordOk(d: Draw) {
    && U32(d.index) && |d.words| == 40 && |d.provenance| == 16 && |d.worldMatrixBits| == 16
    && (forall w | w in d.words :: U32(w)) && (forall w | w in d.worldMatrixBits :: U32(w))
    && forall p | p in d.provenance :: U64(p)
  }

  predicate DrawOk(b: Batch, d: Draw) {
    RecordOk(d) && |d.spans| == 7 && forall k | 0 <= k < |d.spans| :: SpanOk(b, d.spans[k]) && U64(d.spans[k].bytes)
  }

  predicate DistinctDraws(draws: seq<Draw>) {
    forall i, j | 0 <= i < j < |draws| :: draws[i].index != draws[j].index
  }

  /** A completed batch was seen to reach its fence, an uncompleted one exported nothing, and every eligible draw is
      either recorded or counted as omitted. */
  predicate BatchOk(b: Batch) {
    && U64(b.id) && U64(b.fileOffset) && b.bytes <= SLOT_BYTES
    && (b.gpuComplete ==> 0 < b.fenceValue <= b.observedValue && U64(b.observedValue))
    && (b.gpuComplete || b.bytes == 0)
    && |b.draws| <= MAX_DRAWS && |b.draws| + b.omitted == b.eligible && DistinctDraws(b.draws)
    && forall k | 0 <= k < |b.draws| :: DrawOk(b, b.draws[k])
  }

  predicate HeaderOk(h: Header) {
    && (h.schema == 1 || h.schema == 2) && !h.rootCauseReady && (h.slots == 224 || h.slots == MAX_SLOTS)
    && h.bytesPerSlot == SLOT_BYTES && h.drawsPerSlot == MAX_DRAWS
    && (h.maxSlots.Some? ==> h.maxSlots.value == MAX_SLOTS)
  }

  ghost predicate Ordered(batches: seq<Batch>) {
    forall i, j | 0 <= i < j < |batches| :: batches[i].id < batches[j].id
  }

  predicate Contiguous(batches: seq<Batch>) {
    forall i | 0 <= i < |batches| :: batches[i].fileOffset == FileEnd(batches[..i])
  }

  /** There are no more batches than slots, their ids ascend, they lie back to back from the start of the file, and
      nothing follows them. */
  ghost predicate LayoutOk(x: Inputs, binary: seq<Byte>) {
    && HeaderOk(x.header) && U64(x.binaryBytes) && |x.batches| <= x.header.slots
    && x.binaryBytes == |binary| == FileEnd(x.batches) && Ordered(x.batches) && Contiguous(x.batches)
    && forall i | 0 <= i < |x.batches| :: BatchOk(x.batches[i]) && (i == 0 ==> x.batches[i].id > 0)
  }

  /** The bytes a copied span names. */
  function SpanData(binary: seq<Byte>, b: Batch, s: Span): seq<Byte> {
    var at := b.fileOffset + s.offset;
    if at + s.bytes <= |binary| then binary[at..at + s.bytes] else []
  }

  function BatchData(binary: seq<Byte>, b: Batch): seq<Byte> {
    if b.fileOffset + b.bytes <= |binary| then binary[b.fileOffset..b.fileOffset + b.bytes] else []
  }

  // Selecting

  function Chosen(batches: seq<Batch>, frames: set<string>): seq<Batch> {
    if batches == [] then []
    else
      var last := batches[|batches| - 1];
      Chosen(batches[..|batches| - 1], frames) + if last.frame in frames then [last] else []
  }

  /** The copied batch is the original but for its offsets. */
  predicate RebasedTo(b: Batch, original: Batch, offset: nat) {
    b == original.(fileOffset := offset, originalFileOffset := Some(original.fileOffset))
  }

  predicate InRange(b: Batch, binary: seq<Byte>) {
    b.fileOffset + b.bytes <= |binary|
  }

  /** Batch b of the payload is a copy of the original batch of the file. */
  predicate CopyOf(b: Batch, original: Batch, payload: seq<Byte>, binary: seq<Byte>) {
    && InRange(original, binary) && InRange(b, payload) && RebasedTo(b, original, b.fileOffset)
    && BatchData(payload, b) == BatchData(binary, original)
  }

  ghost predicate SelectedUpTo(selected: seq<Batch>, payload: seq<Byte>, chosen: seq<Batch>, binary: seq<Byte>) {
    && |selected| == |chosen| && Contiguous(selected) && |payload| == FileEnd(selected)
    && forall i | 0 <= i < |chosen| :: CopyOf(selected[i], chosen[i], payload, binary)
  }

  lemma OldCopy(b: Batch, original: Batch, payload: seq<Byte>, longer: seq<Byte>, binary: seq<Byte>)
    requires CopyOf(b, original, payload, binary) && payload <= longer
    ensures CopyOf(b, original, longer, binary)
  {
    assert longer[b.fileOffset..b.fileOffset + b.bytes] == payload[b.fileOffset..b.fileOffset + b.bytes];
  }

  lemma NewCopy(original: Batch, payload: seq<Byte>, binary: seq<Byte>)
    requires InRange(original, binary)
    ensures var b := original.(fileOffset := |payload|, originalFileOffset := Some(original.fileOffset));
      CopyOf(b, original, payload + BatchData(binary, original), binary)
  {
    var longer := payload + BatchData(binary, original);
    assert longer[|payload|..|payload| + original.bytes] == BatchData(binary, original);
  }

  lemma ContiguousNext(selected: seq<Batch>, b: Batch)
    requires Contiguous(selected) && b.fileOffset == FileEnd(selected)
    ensures Contiguous(selected + [b]) && FileEnd(selected + [b]) == FileEnd(selected) + b.bytes
  {
    var longer := selected + [b];
    assert longer[..|selected|] == selected;
    forall i: nat | i < |selected| ensures longer[..i] == selected[..i] {}
  }

  lemma SelectedNext(selected: seq<Batch>, payload: seq<Byte>, chosen: seq<Batch>, binary: seq<Byte>, original: Batch)
    requires SelectedUpTo(selected, payload, chosen, binary) && InRange(original, binary)
    ensures var b := original.(fileOffset := |payload|, originalFileOffset := Some(original.fileOffset));
      SelectedUpTo(selected + [b], payload + BatchData(binary, original), chosen + [original], binary)
  {
    var b := original.(fileOffset := |payload|, originalFileOffset := Some(original.fileOffset));
    var copies, originals, longer := selected + [b], chosen + [original], payload + BatchData(binary, original);
    ContiguousNext(selected, b);
    hide Contiguous, FileEnd;
    forall i | 0 <= i < |originals| ensures CopyOf(copies[i], originals[i], longer, binary) {
      if i < |chosen| {
        OldCopy(selected[i], chosen[i], payload, longer, binary);
      } else {
        NewCopy(original, payload, binary);
      }
    }
  }

  /** Appends one batch's bytes to the payload and its record to the list. */
  method CopyBatch(selected: seq<Batch>, payload: seq<Byte>, ghost chosen: seq<Batch>, binary: seq<Byte>, original: Batch)
    returns (selected': seq<Batch>, payload': seq<Byte>)
    requires SelectedUpTo(selected, payload, chosen, binary) && InRange(original, binary)
    ensures SelectedUpTo(selected', payload', chosen + [original], binary)
  {
    hide SelectedUpTo;
    SelectedNext(selected, payload, chosen, binary, original);
    var b := original.(fileOffset := |payload|, originalFileOffset := Some(original.fileOffset));
    payload' := payload + binary[original.fileOffset..original.fileOffset + original.bytes];
    selected' := selected + [b];
  }

  /** None where the source raises: a chosen batch reaches past the file. */
  method SelectEvidence(x: Inputs, binary: seq<Byte>, frames: set<string>) returns (r: Option<Selection>)
    ensures r.Some? <==> forall i | 0 <= i < |Chosen(x.batches, frames)| :: InRange(Chosen(x.batches, frames)[i], binary)
    ensures r.Some? ==>
              SelectedUpTo(r.value.inputs.batches, r.value.payload, Chosen(x.batches, frames), binary)
              && r.value.inputs.binaryBytes == |r.value.payload| && r.value.inputs.header == x.header
  {
    var selected: seq<Batch>, payload: seq<Byte> := [], [];
    for k := 0 to |x.batches|
      invariant SelectedUpTo(selected, payload, Chosen(x.batches[..k], frames), binary)
    {
      assert x.batches[..k + 1][..k] == x.batches[..k];
      var original := x.batches[k];
      if original.frame in frames {
        if !InRange(original, binary) {
          ChosenStays(x.batches, frames, k);
          return None;
        }
        selected, payload := CopyBatch(selected, payload, Chosen(x.batches[..k], frames), binary, original);
      }
    }
    assert x.batches[..|x.batches|] == x.batches;
    return Some(Selection(Inputs(x.header, |payload|, selected), payload));
  }

  lemma {:induction false} ChosenStays(batches: seq<Batch>, frames: set<string>, k: nat)
    requires k < |batches| && batches[k].frame in frames
    ensures exists i | 0 <= i < |Chosen(batches, frames)| :: Chosen(batches, frames)[i] == batches[k]
  {
    var n := |batches| - 1;
    if k < n {
      ChosenStays(batches[..n], frames, k);
      var i :| 0 <= i < |Chosen(batches[..n], frames)| && Chosen(batches[..n], frames)[i] == batches[k];
      assert Chosen(batches, frames)[i] == batches[k];
    } else {
      assert Chosen(batches, frames)[|Chosen(batches[..n], frames)|] == batches[k];
    }
  }

  // What a selection is worth

  lemma {:induction false} ChosenFrom(batches: seq<Batch>, frames: set<string>)
    ensures forall i | 0 <= i < |Chosen(batches, frames)| ::
              Chosen(batches, frames)[i] in batches && Chosen(batches, frames)[i].frame in frames
    ensures Ordered(batches) ==> Ordered(Chosen(batches, frames))
  {
    if batches != [] {
      var n := |batches| - 1;
      ChosenFrom(batches[..n], frames);
      assert batches == batches[..n] + [batches[n]];
      var earlier := Chosen(batches[..n], frames);
      forall i | 0 <= i < |earlier| ensures Ordered(batches) ==> earlier[i].id < batches[n].id {
        assert earlier[i] in batches[..n];
      }
    }
  }

  lemma ContiguousBefore(batches: seq<Batch>, n: nat)
    requires Contiguous(batches) && n <= |batches|
    ensures Contiguous(batches[..n])
  {
    hide FileEnd;
    forall j | 0 <= j < n ensures batches[..n][j].fileOffset == FileEnd(batches[..n][..j]) {
      assert batches[..n][..j] == batches[..j];
    }
  }

  lemma {:induction false} OffsetsInside(batches: seq<Batch>, i: nat)
    requires Contiguous(batches) && i < |batches|
    ensures batches[i].fileOffset + batches[i].bytes <= FileEnd(batches)
  {
    var n := |batches| - 1;
    if i < n {
      ContiguousBefore(batches, n);
      hide Contiguous;
      OffsetsInside(batches[..n], i);
    }
  }

  lemma {:induction false} ChosenIsSmaller(batches: seq<Batch>, frames: set<string>)
    ensures |Chosen(batches, frames)| <= |batches| && FileEnd(Chosen(batches, frames)) <= FileEnd(batches)
  {
    if batches != [] {
      var earlier, last := Chosen(batches[..|batches| - 1], frames), batches[|batches| - 1];
      ChosenIsSmaller(batches[..|batches| - 1], frames);
      assert (earlier + [last])[..|earlier|] == earlier && earlier + [] == earlier;
    }
  }

  lemma {:induction false} SameFileEnd(selected: seq<Batch>, chosen: seq<Batch>, payload: seq<Byte>, binary: seq<Byte>)
    requires |selected| == |chosen|
    requires forall i | 0 <= i < |chosen| :: CopyOf(selected[i], chosen[i], payload, binary)
    ensures FileEnd(selected) == FileEnd(chosen)
  {
    if chosen != [] {
      var n := |chosen| - 1;
      assert CopyOf(selected[n], chosen[n], payload, binary);
      SameFileEnd(selected[..n], chosen[..n], payload, binary);
    }
  }

  /** A file that passes the layout checks can be selected from with any frame set. */
  lemma SelectionNeverRaises(x: Inputs, binary: seq<Byte>, frames: set<string>)
    requires LayoutOk(x, binary)
    ensures forall i | 0 <= i < |Chosen(x.batches, frames)| :: InRange(Chosen(x.batches, frames)[i], binary)
  {
    ChosenFrom(x.batches, frames);
    forall i | 0 <= i < |Chosen(x.batches, frames)| ensures InRange(Chosen(x.batches, frames)[i], binary) {
      var j :| 0 <= j < |x.batches| && x.batches[j] == Chosen(x.batches, frames)[i];
      OffsetsInside(x.batches, j);
    }
  }

  /** The derived file passes the same layout checks as the original. */
  lemma SelectionPassesLayout(x: Inputs, binary: seq<Byte>, frames: set<string>, r: Selection)
    requires LayoutOk(x, binary)
    requires SelectedUpTo(r.inputs.batches, r.payload, Chosen(x.batches, frames), binary)
    requires r.inputs.binaryBytes == |r.payload| && r.inputs.header == x.header
    ensures LayoutOk(r.inputs, r.payload)
  {
    var chosen, selected := Chosen(x.batches, frames), r.inputs.batches;
    ChosenFrom(x.batches, frames);
    ChosenIsSmaller(x.batches, frames);
    SameFileEnd(selected, chosen, r.payload, binary);
    forall i | 0 <= i < |selected| ensures BatchOk(selected[i]) && selected[i].id > 0 && selected[i].id == chosen[i].id {
      assert CopyOf(selected[i], chosen[i], r.payload, binary);
      var j :| 0 <= j < |x.batches| && x.batches[j] == chosen[i];
      assert x.batches[0].id > 0 && (j > 0 ==> x.batches[0].id < x.batches[j].id);
      OffsetsInside(selected, i);
      SameChecks(selected[i], x.batches[j]);
    }
  }

  lemma SameChecks(b: Batch, original: Batch)
    requires BatchOk(original) && RebasedTo(b, original, b.fileOffset) && U64(b.fileOffset)
    ensures BatchOk(b)
  {
    forall k | 0 <= k < |b.draws| ensures DrawOk(b, b.draws[k]) {
      assert DrawOk(original, original.draws[k]);
      forall m | 0 <= m < |b.draws[k].spans| ensures SpanOk(b, b.draws[k].spans[m]) {
        assert SpanOk(original, original.draws[k].spans[m]);
      }
    }
  }

  /** Every copied span of a selected batch names the same bytes in the payload as it did in the original file. */
  lemma SpansUnchanged(x: Inputs, binary: seq<Byte>, frames: set<string>, r: Selection, i: nat, s: Span)
    requires SelectedUpTo(r.inputs.batches, r.payload, Chosen(x.batches, frames), binary)
    requires i < |r.inputs.batches| && s.offset + s.bytes <= r.inputs.batches[i].bytes
    ensures SpanData(r.payload, r.inputs.batches[i], s) == SpanData(binary, Chosen(x.batches, frames)[i], s)
    ensures |SpanData(r.payload, r.inputs.batches[i], s)| == s.bytes
  {
    var b, original := r.inputs.batches[i], Chosen(x.batches, frames)[i];
    assert CopyOf(b, original, r.payload, binary);
    SpanWithinBatch(r.payload, b, s);
    SpanWithinBatch(binary, original, s);
  }

  lemma SpanWithinBatch(binary: seq<Byte>, b: Batch, s: Span)
    requires InRange(b, binary) && s.offset + s.bytes <= b.bytes
    ensures |BatchData(binary, b)| == b.bytes
    ensures SpanData(binary, b, s) == BatchData(binary, b)[s.offset..s.offset + s.bytes]
  {
    var inBatch, inFile := BatchData(binary, b)[s.offset..s.offset + s.bytes], SpanData(binary, b, s);
    forall k | 0 <= k < s.bytes ensures inBatch[k] == inFile[k] {
      assert inBatch[k] == BatchData(binary, b)[s.offset + k];
    }
  }
}
