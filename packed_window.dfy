/** What one ReadMinibatch does to one stream once its slots are topped up: PackSequence
    packs a window of min(T, buffered) samples from every slot in turn, adds the slot's
    layout records and copies the samples into the stream buffer. */
module PackedWindow {
  import opened BpttTypes
  import opened SampleCopy
  import opened LaneQueue
  import opened SlotImage
  import opened SequenceBuffers

  /** PackSequence's numberOfSamples: min(T, the slot's buffered count). */
  function WindowSize(buffer: SequenceBuffer, slot: nat, timeSteps: nat): (n: nat)
    requires slot < |buffer.preparedSequenceLength|
    ensures n <= timeSteps && n <= buffer.preparedSequenceLength[slot]
    ensures n == timeSteps || n == buffer.preparedSequenceLength[slot]
  {
    if timeSteps < buffer.preparedSequenceLength[slot] then timeSteps else buffer.preparedSequenceLength[slot]
  }

  /** Every slot of the buffer is counted. */
  predicate AllCounted(buffer: SequenceBuffer, parallel: nat) {
    && Sized(buffer, parallel)
    && forall slot :: 0 <= slot < parallel ==> Counted(buffer, slot)
  }

  lemma ValidCounted(buffer: SequenceBuffer, parallel: nat, stream: StreamDescription)
    requires BufferValid(buffer, parallel, stream)
    ensures AllCounted(buffer, parallel)
  {
    forall slot | 0 <= slot < parallel ensures Counted(buffer, slot) {
      assert SlotValid(buffer, slot, stream);
    }
  }

  /** The slot once its window is packed: the cursor moved past the packed samples. */
  function PackedLane(buffer: SequenceBuffer, slot: nat, timeSteps: nat): Lane
    requires slot < |buffer.preparedSequences| && slot < |buffer.preparedSequenceLength|
    requires slot < |buffer.sequenceSamplePosition| && Counted(buffer, slot)
  {
    Consume(LaneOf(buffer, slot), WindowSize(buffer, slot, timeSteps))
  }

  /** PackSequence's effect on the buffer of its stream: the slot's window is consumed and
      its count lowered by the window size. */
  function ConsumeSlot(buffer: SequenceBuffer, slot: nat, timeSteps: nat): (r: SequenceBuffer)
    requires slot < |buffer.preparedSequences| && slot < |buffer.preparedSequenceLength|
    requires slot < |buffer.sequenceSamplePosition| && Counted(buffer, slot)
    ensures |r.preparedSequences| == |buffer.preparedSequences|
    ensures |r.preparedSequenceLength| == |buffer.preparedSequenceLength|
    ensures |r.sequenceSamplePosition| == |buffer.sequenceSamplePosition|
  {
    var after := PackedLane(buffer, slot, timeSteps);
    SequenceBuffer(
      buffer.preparedSequences[slot := after.queue],
      buffer.preparedSequenceLength[slot := buffer.preparedSequenceLength[slot] - WindowSize(buffer, slot, timeSteps)],
      buffer.sequenceSamplePosition[slot := after.position])
  }

  /** The buffer PackSequence writes back, from the cursor its loop ends on, is ConsumeSlot. */
  lemma ConsumeSlotFrom(buffer: SequenceBuffer, slot: nat, timeSteps: nat, n: nat, queue: seq<SequenceData>, position: nat, packed: SequenceBuffer)
    requires slot < |buffer.preparedSequences| && slot < |buffer.preparedSequenceLength|
    requires slot < |buffer.sequenceSamplePosition| && Counted(buffer, slot)
    requires n == WindowSize(buffer, slot, timeSteps)
    requires Lane(queue, position) == Consume(Lane(buffer.preparedSequences[slot], buffer.sequenceSamplePosition[slot]), n)
    requires packed == SequenceBuffer(buffer.preparedSequences[slot := queue],
                                      buffer.preparedSequenceLength[slot := buffer.preparedSequenceLength[slot] - n],
                                      buffer.sequenceSamplePosition[slot := position])
    ensures packed == ConsumeSlot(buffer, slot, timeSteps)
  {
  }

  /** Packing a slot's window keeps the slot valid and leaves exactly the samples after
      the window pending, in order; the other slots are untouched. */
  lemma ConsumeSlotValid(buffer: SequenceBuffer, parallel: nat, stream: StreamDescription, slot: nat, timeSteps: nat)
    requires BufferValid(buffer, parallel, stream) && slot < parallel
    ensures SlotValid(buffer, slot, stream)
    ensures var r := ConsumeSlot(buffer, slot, timeSteps);
            && BufferValid(r, parallel, stream)
            && Pending(LaneOf(r, slot)) == Pending(LaneOf(buffer, slot))[WindowSize(buffer, slot, timeSteps)..]
  {
    assert SlotValid(buffer, slot, stream);
    var r := ConsumeSlot(buffer, slot, timeSteps);
    ConsumedSlotValid(buffer, slot, stream, timeSteps);
    forall other | 0 <= other < parallel && other != slot ensures SlotValid(r, other, stream) {
      assert SlotValid(buffer, other, stream);
      assert LaneOf(r, other) == LaneOf(buffer, other);
    }
  }

  /** ConsumeSlotValid for the packed slot itself. */
  lemma ConsumedSlotValid(buffer: SequenceBuffer, slot: nat, stream: StreamDescription, timeSteps: nat)
    requires slot < |buffer.preparedSequences| && slot < |buffer.preparedSequenceLength|
    requires slot < |buffer.sequenceSamplePosition| && SlotValid(buffer, slot, stream)
    ensures var r := ConsumeSlot(buffer, slot, timeSteps);
            && SlotValid(r, slot, stream)
            && Pending(LaneOf(r, slot)) == Pending(LaneOf(buffer, slot))[WindowSize(buffer, slot, timeSteps)..]
  {
    var lane := LaneOf(buffer, slot);
    var n := WindowSize(buffer, slot, timeSteps);
    var r := ConsumeSlot(buffer, slot, timeSteps);
    ConsumePending(lane, n);
    ConsumeDrops(lane, n);
    assert LaneOf(r, slot) == Consume(lane, n);
    var queue := Consume(lane, n).queue;
    var d := |lane.queue| - |queue|;
    assert queue == lane.queue[d..];
    assert r.preparedSequences[slot] == queue;
    forall j | 0 <= j < |queue| ensures Fits(queue[j], stream) {
      assert queue[j] == lane.queue[d + j];
    }
  }

  /** The buffer once the first `slots` slots have each packed their window. */
  function PackedBuffer(buffer: SequenceBuffer, parallel: nat, slots: nat, timeSteps: nat): (r: SequenceBuffer)
    requires AllCounted(buffer, parallel) && slots <= parallel
    ensures Sized(r, parallel)
  {
    SequenceBuffer(
      seq(parallel, k requires 0 <= k < parallel =>
        if k < slots then PackedLane(buffer, k, timeSteps).queue else buffer.preparedSequences[k]),
      seq(parallel, k requires 0 <= k < parallel =>
        if k < slots then buffer.preparedSequenceLength[k] - WindowSize(buffer, k, timeSteps) else buffer.preparedSequenceLength[k]),
      seq(parallel, k requires 0 <= k < parallel =>
        if k < slots then PackedLane(buffer, k, timeSteps).position else buffer.sequenceSamplePosition[k]))
  }

  /** Packing no slot changes nothing. */
  lemma PackedBufferNone(buffer: SequenceBuffer, parallel: nat, timeSteps: nat)
    requires AllCounted(buffer, parallel)
    ensures PackedBuffer(buffer, parallel, 0, timeSteps) == buffer
  {
    var r := PackedBuffer(buffer, parallel, 0, timeSteps);
    assert r.preparedSequences == buffer.preparedSequences;
    assert r.preparedSequenceLength == buffer.preparedSequenceLength;
    assert r.sequenceSamplePosition == buffer.sequenceSamplePosition;
  }

  /** Slot `slot` is still as topped up while the slots before it are packed, and packing
      it next gives the buffer with one more slot packed. */
  lemma PackedBufferStep(buffer: SequenceBuffer, parallel: nat, slot: nat, timeSteps: nat)
    requires AllCounted(buffer, parallel) && slot < parallel
    ensures var b := PackedBuffer(buffer, parallel, slot, timeSteps);
            && LaneOf(b, slot) == LaneOf(buffer, slot)
            && b.preparedSequenceLength[slot] == buffer.preparedSequenceLength[slot]
            && Counted(b, slot)
            && ConsumeSlot(b, slot, timeSteps) == PackedBuffer(buffer, parallel, slot + 1, timeSteps)
  {
    assert Counted(buffer, slot);
    var b := PackedBuffer(buffer, parallel, slot, timeSteps);
    var c := ConsumeSlot(b, slot, timeSteps);
    var e := PackedBuffer(buffer, parallel, slot + 1, timeSteps);
    assert LaneOf(b, slot) == LaneOf(buffer, slot);
    assert c.preparedSequences == e.preparedSequences;
    assert c.preparedSequenceLength == e.preparedSequenceLength;
    assert c.sequenceSamplePosition == e.sequenceSamplePosition;
  }

  /** Packing the first `slots` slots keeps the buffer valid. */
  lemma PackedBufferValid(buffer: SequenceBuffer, parallel: nat, stream: StreamDescription, slots: nat, timeSteps: nat)
    requires BufferValid(buffer, parallel, stream) && slots <= parallel
    ensures AllCounted(buffer, parallel)
    ensures BufferValid(PackedBuffer(buffer, parallel, slots, timeSteps), parallel, stream)
  {
    ValidCounted(buffer, parallel, stream);
    var r := PackedBuffer(buffer, parallel, slots, timeSteps);
    forall k | 0 <= k < parallel ensures SlotValid(r, k, stream) {
      PackedBufferSlot(buffer, parallel, stream, slots, timeSteps, k);
    }
  }

  /** A packed slot keeps the samples after its window pending, in order; a slot not
      packed yet is as it was. */
  lemma PackedBufferSlot(buffer: SequenceBuffer, parallel: nat, stream: StreamDescription, slots: nat, timeSteps: nat, k: nat)
    requires BufferValid(buffer, parallel, stream) && slots <= parallel && k < parallel
    ensures AllCounted(buffer, parallel)
    ensures var r := PackedBuffer(buffer, parallel, slots, timeSteps);
            && SlotValid(r, k, stream) && SlotValid(buffer, k, stream)
            && Pending(LaneOf(r, k))
               == if k < slots then Pending(LaneOf(buffer, k))[WindowSize(buffer, k, timeSteps)..]
                  else Pending(LaneOf(buffer, k))
  {
    ValidCounted(buffer, parallel, stream);
    var r := PackedBuffer(buffer, parallel, slots, timeSteps);
    assert SlotValid(buffer, k, stream);
    if k < slots {
      ConsumeSlotValid(buffer, parallel, stream, k, timeSteps);
      var c := ConsumeSlot(buffer, k, timeSteps);
      assert SlotValid(c, k, stream);
      assert LaneOf(r, k) == LaneOf(c, k);
    } else {
      assert LaneOf(r, k) == LaneOf(buffer, k);
    }
  }

  /** The layout records PackSequence adds for slot k's window. */
  function SlotLayout(buffer: SequenceBuffer, parallel: nat, k: nat, timeSteps: nat): seq<LayoutEntry>
    requires AllCounted(buffer, parallel) && k < parallel
  {
    assert Counted(buffer, k);
    SlotSpans(k, LaneOf(buffer, k), WindowSize(buffer, k, timeSteps), timeSteps)
  }

  /** The records of a window of n >= 1 samples: the spans of the sequences it touches,
      closed by a gap record when n < T. */
  lemma SlotLayoutOpen(buffer: SequenceBuffer, parallel: nat, k: nat, timeSteps: nat, n: nat)
    requires AllCounted(buffer, parallel) && k < parallel
    requires n == WindowSize(buffer, k, timeSteps) >= 1
    ensures Positioned(LaneOf(buffer, k)) && n <= Buffered(LaneOf(buffer, k))
    ensures var lane := LaneOf(buffer, k);
            SlotLayout(buffer, parallel, k, timeSteps)
            == SequenceSpans(k, lane.queue, lane.position, Touched(lane, n))
               + (if n < timeSteps then [LayoutEntry(k, GapSpan(n, timeSteps - n))] else [])
  {
    assert Counted(buffer, k);
  }

  /** The samples slot k's window packs, one per time step from 0. */
  function SlotWindow(buffer: SequenceBuffer, parallel: nat, k: nat, timeSteps: nat): (r: seq<SampleRef>)
    requires AllCounted(buffer, parallel) && k < parallel
    ensures |r| == WindowSize(buffer, k, timeSteps)
  {
    assert Counted(buffer, k);
    Pending(LaneOf(buffer, k))[..WindowSize(buffer, k, timeSteps)]
  }

  /** The layout records PackSequence adds for the first `slots` slots, slot by slot. */
  function PackedLayout(buffer: SequenceBuffer, parallel: nat, slots: nat, timeSteps: nat): seq<LayoutEntry>
    requires AllCounted(buffer, parallel) && slots <= parallel
  {
    if slots == 0 then []
    else PackedLayout(buffer, parallel, slots - 1, timeSteps) + SlotLayout(buffer, parallel, slots - 1, timeSteps)
  }

  /** Samples the first `slots` slots contribute to the minibatch. */
  function PackedSamples(buffer: SequenceBuffer, parallel: nat, slots: nat, timeSteps: nat): nat
    requires Sized(buffer, parallel) && slots <= parallel
  {
    if slots == 0 then 0
    else PackedSamples(buffer, parallel, slots - 1, timeSteps) + WindowSize(buffer, slots - 1, timeSteps)
  }

  /** GetActualNumSamples of the packed layout is the number of packed samples: every
      slot's records cover exactly its window. */
  lemma {:induction false} PackedLayoutCovers(buffer: SequenceBuffer, parallel: nat, slots: nat, timeSteps: nat)
    requires AllCounted(buffer, parallel) && slots <= parallel
    ensures SumCovered(PackedLayout(buffer, parallel, slots, timeSteps), timeSteps) == PackedSamples(buffer, parallel, slots, timeSteps)
    decreases slots
  {
    if slots > 0 {
      var k := slots - 1;
      PackedLayoutCovers(buffer, parallel, k, timeSteps);
      SlotLayoutCovers(buffer, parallel, k, timeSteps);
      SumCoveredAppend(PackedLayout(buffer, parallel, k, timeSteps), SlotLayout(buffer, parallel, k, timeSteps), timeSteps);
    }
  }

  /** One slot's records cover exactly its window. */
  lemma SlotLayoutCovers(buffer: SequenceBuffer, parallel: nat, k: nat, timeSteps: nat)
    requires AllCounted(buffer, parallel) && k < parallel
    ensures SumCovered(SlotLayout(buffer, parallel, k, timeSteps), timeSteps) == WindowSize(buffer, k, timeSteps)
  {
    assert Counted(buffer, k);
    SlotSpansCover(k, LaneOf(buffer, k), WindowSize(buffer, k, timeSteps), timeSteps);
  }

  /** Every slot's window holds at most T samples, so a minibatch holds at most P * T. */
  lemma {:induction false} PackedSamplesBound(buffer: SequenceBuffer, parallel: nat, slots: nat, timeSteps: nat)
    requires Sized(buffer, parallel) && slots <= parallel
    ensures PackedSamples(buffer, parallel, slots, timeSteps) <= slots * timeSteps
    decreases slots
  {
    if slots > 0 {
      PackedSamplesBound(buffer, parallel, slots - 1, timeSteps);
      MulSucc(slots - 1, timeSteps);
    }
  }

  /** A buffer with something to pack yields a non-empty minibatch when T >= 1. */
  lemma {:induction false} PackedSamplesPositive(buffer: SequenceBuffer, parallel: nat, slots: nat, timeSteps: nat, slot: nat)
    requires Sized(buffer, parallel) && slot < slots <= parallel && timeSteps >= 1
    requires buffer.preparedSequenceLength[slot] >= 1
    ensures PackedSamples(buffer, parallel, slots, timeSteps) >= 1
    decreases slots
  {
    if slot < slots - 1 {
      PackedSamplesPositive(buffer, parallel, slots - 1, timeSteps, slot);
    }
  }

  /** Slot by slot, two streams' buffers have the same sample counts, cursors and
      buffered counts. */
  predicate SlotsInStep(a: SequenceBuffer, b: SequenceBuffer, parallel: nat)
    requires Sized(a, parallel) && Sized(b, parallel)
  {
    forall k :: 0 <= k < parallel ==>
      && Counts(a.preparedSequences[k]) == Counts(b.preparedSequences[k])
      && a.sequenceSamplePosition[k] == b.sequenceSamplePosition[k]
      && a.preparedSequenceLength[k] == b.preparedSequenceLength[k]
  }

  /** One slot of two streams in step gets the same records. */
  lemma SlotLayoutInStep(a: SequenceBuffer, b: SequenceBuffer, parallel: nat, k: nat, timeSteps: nat)
    requires AllCounted(a, parallel) && AllCounted(b, parallel) && k < parallel && SlotsInStep(a, b, parallel)
    ensures SlotLayout(a, parallel, k, timeSteps) == SlotLayout(b, parallel, k, timeSteps)
    ensures WindowSize(a, k, timeSteps) == WindowSize(b, k, timeSteps)
  {
    assert Counted(a, k) && Counted(b, k);
    SlotSpansInStep(k, LaneOf(a, k), LaneOf(b, k), WindowSize(a, k, timeSteps), timeSteps);
  }

  /** Streams in step get the same layout records. */
  lemma {:induction false} PackedLayoutInStep(a: SequenceBuffer, b: SequenceBuffer, parallel: nat, slots: nat, timeSteps: nat)
    requires AllCounted(a, parallel) && AllCounted(b, parallel) && slots <= parallel && SlotsInStep(a, b, parallel)
    ensures PackedLayout(a, parallel, slots, timeSteps) == PackedLayout(b, parallel, slots, timeSteps)
    decreases slots
  {
    if slots > 0 {
      PackedLayoutInStep(a, b, parallel, slots - 1, timeSteps);
      PackedLayoutStepInStep(a, b, parallel, slots, timeSteps);
    }
  }

  lemma PackedLayoutStepInStep(a: SequenceBuffer, b: SequenceBuffer, parallel: nat, slots: nat, timeSteps: nat)
    requires AllCounted(a, parallel) && AllCounted(b, parallel) && 0 < slots <= parallel && SlotsInStep(a, b, parallel)
    requires PackedLayout(a, parallel, slots - 1, timeSteps) == PackedLayout(b, parallel, slots - 1, timeSteps)
    ensures PackedLayout(a, parallel, slots, timeSteps) == PackedLayout(b, parallel, slots, timeSteps)
  {
    var k := slots - 1;
    var slotA := SlotLayout(a, parallel, k, timeSteps);
    SlotLayoutInStep(a, b, parallel, k, timeSteps);
    assert PackedLayout(a, parallel, slots, timeSteps) == PackedLayout(a, parallel, k, timeSteps) + slotA;
  }

  /** Streams in step pack the same number of samples. */
  lemma {:induction false} PackedSamplesInStep(a: SequenceBuffer, b: SequenceBuffer, parallel: nat, slots: nat, timeSteps: nat)
    requires Sized(a, parallel) && Sized(b, parallel) && slots <= parallel && SlotsInStep(a, b, parallel)
    ensures PackedSamples(a, parallel, slots, timeSteps) == PackedSamples(b, parallel, slots, timeSteps)
    decreases slots
  {
    if slots > 0 {
      PackedSamplesInStep(a, b, parallel, slots - 1, timeSteps);
    }
  }

  /** Packing keeps streams in step: slot by slot, the packed buffers have the same sample
      counts, cursors and buffered counts. */
  lemma PackedBufferInStep(a: SequenceBuffer, b: SequenceBuffer, parallel: nat, slots: nat, timeSteps: nat)
    requires AllCounted(a, parallel) && AllCounted(b, parallel) && slots <= parallel && SlotsInStep(a, b, parallel)
    ensures SlotsInStep(PackedBuffer(a, parallel, slots, timeSteps), PackedBuffer(b, parallel, slots, timeSteps), parallel)
  {
    var ra := PackedBuffer(a, parallel, slots, timeSteps);
    var rb := PackedBuffer(b, parallel, slots, timeSteps);
    forall k | 0 <= k < slots
      ensures Counts(ra.preparedSequences[k]) == Counts(rb.preparedSequences[k])
      ensures ra.sequenceSamplePosition[k] == rb.sequenceSamplePosition[k]
    {
      assert Counted(a, k) && Counted(b, k);
      ConsumeInStep(LaneOf(a, k), LaneOf(b, k), WindowSize(a, k, timeSteps));
    }
  }

  /** Every pending sample of every slot can be copied into a sample of the stream. */
  predicate PendingCopyable(buffer: SequenceBuffer, parallel: nat, elementSize: nat, sampleSize: nat)
    requires AllCounted(buffer, parallel)
  {
    forall k :: 0 <= k < parallel ==> Counted(buffer, k) && RefsCopyable(Pending(LaneOf(buffer, k)), elementSize, sampleSize)
  }

  lemma ValidCopyable(buffer: SequenceBuffer, parallel: nat, stream: StreamDescription)
    requires BufferValid(buffer, parallel, stream) && IsFloatingPoint(stream.elementType)
    ensures AllCounted(buffer, parallel)
    ensures PendingCopyable(buffer, parallel, ElementSize(stream.elementType), GetSampleSize(stream))
  {
    ValidCounted(buffer, parallel, stream);
    forall k | 0 <= k < parallel
      ensures Counted(buffer, k) && RefsCopyable(Pending(LaneOf(buffer, k)), ElementSize(stream.elementType), GetSampleSize(stream))
    {
      assert SlotValid(buffer, k, stream);
      PendingFits(buffer, parallel, stream, k);
    }
  }

  lemma PendingFits(buffer: SequenceBuffer, parallel: nat, stream: StreamDescription, k: nat)
    requires Sized(buffer, parallel) && k < parallel && SlotValid(buffer, k, stream)
    ensures RefsCopyable(Pending(LaneOf(buffer, k)), ElementSize(stream.elementType), GetSampleSize(stream))
  {
    forall i | 0 <= i < |Pending(LaneOf(buffer, k))|
      ensures CopyableSample(Pending(LaneOf(buffer, k))[i].sequence, Pending(LaneOf(buffer, k))[i].sample,
                             ElementSize(stream.elementType), GetSampleSize(stream))
    {
      var lane := LaneOf(buffer, k);
      AllRefsAt(lane.queue, lane.position + i);
      var ref := Pending(lane)[i];
      assert ref == AllRefs(lane.queue)[lane.position + i];
      var j :| 0 <= j < |lane.queue| && lane.queue[j] == ref.sequence;
      FitsCopyable(ref.sequence, stream, ref.sample);
    }
  }

  lemma SlotWindowCopyable(buffer: SequenceBuffer, parallel: nat, k: nat, timeSteps: nat, elementSize: nat, sampleSize: nat)
    requires AllCounted(buffer, parallel) && k < parallel
    requires PendingCopyable(buffer, parallel, elementSize, sampleSize)
    ensures RefsCopyable(SlotWindow(buffer, parallel, k, timeSteps), elementSize, sampleSize)
  {
    assert Counted(buffer, k) && RefsCopyable(Pending(LaneOf(buffer, k)), elementSize, sampleSize);
  }

  /** The sampleSize bytes of time step `row` of slot `slot` in a buffer of P slots and
      T time steps. */
  function Cell(bytes: seq<bv8>, row: nat, slot: nat, parallel: nat, timeSteps: nat, sampleSize: nat): (r: seq<bv8>)
    requires row < timeSteps && slot < parallel && |bytes| == parallel * timeSteps * sampleSize
    ensures |r| == sampleSize
  {
    SampleInBuffer(row, slot, parallel, timeSteps, sampleSize);
    var at := SampleOffset(row, slot, parallel, sampleSize);
    bytes[at..at + sampleSize]
  }

  /** What a cell holds once the first `slots` slots are packed over `before`: sample
      `row` of the slot's window when the slot is packed and `row` lies in its window,
      and what was there before otherwise. */
  function PackedCell(before: seq<bv8>, buffer: SequenceBuffer, parallel: nat, slots: nat, timeSteps: nat, elementSize: nat, sampleSize: nat, row: nat, slot: nat): (r: seq<bv8>)
    requires AllCounted(buffer, parallel) && |before| == parallel * timeSteps * sampleSize
    requires PendingCopyable(buffer, parallel, elementSize, sampleSize)
    requires row < timeSteps && slot < parallel
    ensures |r| == sampleSize
  {
    if slot < slots && row < WindowSize(buffer, slot, timeSteps) then
      SlotWindowCopyable(buffer, parallel, slot, timeSteps, elementSize, sampleSize);
      var ref := SlotWindow(buffer, parallel, slot, timeSteps)[row];
      CopySample(Cell(before, row, slot, parallel, timeSteps, sampleSize), ref.sequence, ref.sample, elementSize)
    else
      Cell(before, row, slot, parallel, timeSteps, sampleSize)
  }

  /** `after` is the stream buffer `before` once the first `slots` slots have copied
      their windows into it: every cell holds its PackedCell. The cells tile the buffer,
      so this fixes every byte (PackedUnique). */
  predicate SlotsPacked(before: seq<bv8>, after: seq<bv8>, buffer: SequenceBuffer, parallel: nat, slots: nat, timeSteps: nat, elementSize: nat, sampleSize: nat)
    requires AllCounted(buffer, parallel) && |before| == parallel * timeSteps * sampleSize
    requires PendingCopyable(buffer, parallel, elementSize, sampleSize)
  {
    && |after| == |before|
    && forall row, slot :: 0 <= row < timeSteps && 0 <= slot < parallel ==>
         Cell(after, row, slot, parallel, timeSteps, sampleSize)
         == PackedCell(before, buffer, parallel, slots, timeSteps, elementSize, sampleSize, row, slot)
  }

  /** Before any slot is packed the buffer is as it was. */
  lemma PackedNone(bytes: seq<bv8>, buffer: SequenceBuffer, parallel: nat, timeSteps: nat, elementSize: nat, sampleSize: nat)
    requires AllCounted(buffer, parallel) && |bytes| == parallel * timeSteps * sampleSize
    requires PendingCopyable(buffer, parallel, elementSize, sampleSize)
    ensures SlotsPacked(bytes, bytes, buffer, parallel, 0, timeSteps, elementSize, sampleSize)
  {
  }

  /** PackSequence's copy of slot `slots` over a buffer in which the slots before it are
      packed leaves a buffer in which one more slot is packed. */
  lemma PackedStep(before: seq<bv8>, middle: seq<bv8>, buffer: SequenceBuffer, parallel: nat, slots: nat, timeSteps: nat, elementSize: nat, sampleSize: nat)
    requires AllCounted(buffer, parallel) && slots < parallel && |before| == parallel * timeSteps * sampleSize
    requires PendingCopyable(buffer, parallel, elementSize, sampleSize)
    requires SlotsPacked(before, middle, buffer, parallel, slots, timeSteps, elementSize, sampleSize)
    ensures RefsCopyable(SlotWindow(buffer, parallel, slots, timeSteps), elementSize, sampleSize)
    ensures SlotsPacked(before, PackedSlot(middle, slots, SlotWindow(buffer, parallel, slots, timeSteps), parallel, timeSteps, elementSize, sampleSize),
                        buffer, parallel, slots + 1, timeSteps, elementSize, sampleSize)
  {
    SlotWindowCopyable(buffer, parallel, slots, timeSteps, elementSize, sampleSize);
    var refs := SlotWindow(buffer, parallel, slots, timeSteps);
    var after := PackedSlot(middle, slots, refs, parallel, timeSteps, elementSize, sampleSize);
    forall row, slot | 0 <= row < timeSteps && 0 <= slot < parallel
      ensures Cell(after, row, slot, parallel, timeSteps, sampleSize)
           == PackedCell(before, buffer, parallel, slots + 1, timeSteps, elementSize, sampleSize, row, slot)
    {
      PackedStepCell(before, middle, buffer, parallel, slots, timeSteps, elementSize, sampleSize, row, slot);
    }
  }

  lemma PackedStepCell(before: seq<bv8>, middle: seq<bv8>, buffer: SequenceBuffer, parallel: nat, slots: nat, timeSteps: nat, elementSize: nat, sampleSize: nat, row: nat, slot: nat)
    requires AllCounted(buffer, parallel) && slots < parallel && |before| == parallel * timeSteps * sampleSize
    requires PendingCopyable(buffer, parallel, elementSize, sampleSize)
    requires SlotsPacked(before, middle, buffer, parallel, slots, timeSteps, elementSize, sampleSize)
    requires row < timeSteps && slot < parallel
    ensures RefsCopyable(SlotWindow(buffer, parallel, slots, timeSteps), elementSize, sampleSize)
    ensures Cell(PackedSlot(middle, slots, SlotWindow(buffer, parallel, slots, timeSteps), parallel, timeSteps, elementSize, sampleSize),
                 row, slot, parallel, timeSteps, sampleSize)
         == PackedCell(before, buffer, parallel, slots + 1, timeSteps, elementSize, sampleSize, row, slot)
  {
    assert Cell(middle, row, slot, parallel, timeSteps, sampleSize)
        == PackedCell(before, buffer, parallel, slots, timeSteps, elementSize, sampleSize, row, slot);
    PackedStepSlotCell(before, middle, buffer, parallel, slots, timeSteps, elementSize, sampleSize, row, slot);
  }

  /** PackedStepCell for one cell, from what the cell held before slot `slots` was packed. */
  lemma PackedStepSlotCell(before: seq<bv8>, middle: seq<bv8>, buffer: SequenceBuffer, parallel: nat, slots: nat, timeSteps: nat, elementSize: nat, sampleSize: nat, row: nat, slot: nat)
    requires AllCounted(buffer, parallel) && slots < parallel && |before| == parallel * timeSteps * sampleSize
    requires PendingCopyable(buffer, parallel, elementSize, sampleSize)
    requires row < timeSteps && slot < parallel && |middle| == |before|
    requires Cell(middle, row, slot, parallel, timeSteps, sampleSize)
          == PackedCell(before, buffer, parallel, slots, timeSteps, elementSize, sampleSize, row, slot)
    ensures RefsCopyable(SlotWindow(buffer, parallel, slots, timeSteps), elementSize, sampleSize)
    ensures Cell(PackedSlot(middle, slots, SlotWindow(buffer, parallel, slots, timeSteps), parallel, timeSteps, elementSize, sampleSize),
                 row, slot, parallel, timeSteps, sampleSize)
         == PackedCell(before, buffer, parallel, slots + 1, timeSteps, elementSize, sampleSize, row, slot)
  {
    SlotWindowCopyable(buffer, parallel, slots, timeSteps, elementSize, sampleSize);
    if slot != slots {
      PackedStepOtherCell(before, middle, buffer, parallel, slots, timeSteps, elementSize, sampleSize, row, slot);
    } else {
      PackedStepOwnCell(before, middle, buffer, parallel, slots, timeSteps, elementSize, sampleSize, row);
    }
  }

  /** PackedStepSlotCell for a cell of another slot: packing slot `slots` leaves it. */
  lemma PackedStepOtherCell(before: seq<bv8>, middle: seq<bv8>, buffer: SequenceBuffer, parallel: nat, slots: nat, timeSteps: nat, elementSize: nat, sampleSize: nat, row: nat, slot: nat)
    requires AllCounted(buffer, parallel) && slots < parallel && |before| == parallel * timeSteps * sampleSize
    requires PendingCopyable(buffer, parallel, elementSize, sampleSize)
    requires row < timeSteps && slot < parallel && slot != slots && |middle| == |before|
    requires RefsCopyable(SlotWindow(buffer, parallel, slots, timeSteps), elementSize, sampleSize)
    requires Cell(middle, row, slot, parallel, timeSteps, sampleSize)
          == PackedCell(before, buffer, parallel, slots, timeSteps, elementSize, sampleSize, row, slot)
    ensures Cell(PackedSlot(middle, slots, SlotWindow(buffer, parallel, slots, timeSteps), parallel, timeSteps, elementSize, sampleSize),
                 row, slot, parallel, timeSteps, sampleSize)
         == PackedCell(before, buffer, parallel, slots + 1, timeSteps, elementSize, sampleSize, row, slot)
  {
    var refs := SlotWindow(buffer, parallel, slots, timeSteps);
    PackedSlotKeepsOtherSlot(middle, slots, refs, parallel, timeSteps, elementSize, sampleSize, row, slot);
    assert PackedCell(before, buffer, parallel, slots + 1, timeSteps, elementSize, sampleSize, row, slot)
        == PackedCell(before, buffer, parallel, slots, timeSteps, elementSize, sampleSize, row, slot);
  }

  /** PackedStepSlotCell for a cell of slot `slots` itself: it receives its window's
      sample `row` when there is one, and keeps what it held before otherwise. */
  lemma PackedStepOwnCell(before: seq<bv8>, middle: seq<bv8>, buffer: SequenceBuffer, parallel: nat, slots: nat, timeSteps: nat, elementSize: nat, sampleSize: nat, row: nat)
    requires AllCounted(buffer, parallel) && slots < parallel && |before| == parallel * timeSteps * sampleSize
    requires PendingCopyable(buffer, parallel, elementSize, sampleSize)
    requires row < timeSteps && |middle| == |before|
    requires RefsCopyable(SlotWindow(buffer, parallel, slots, timeSteps), elementSize, sampleSize)
    requires Cell(middle, row, slots, parallel, timeSteps, sampleSize)
          == PackedCell(before, buffer, parallel, slots, timeSteps, elementSize, sampleSize, row, slots)
    ensures Cell(PackedSlot(middle, slots, SlotWindow(buffer, parallel, slots, timeSteps), parallel, timeSteps, elementSize, sampleSize),
                 row, slots, parallel, timeSteps, sampleSize)
         == PackedCell(before, buffer, parallel, slots + 1, timeSteps, elementSize, sampleSize, row, slots)
  {
    var refs := SlotWindow(buffer, parallel, slots, timeSteps);
    var was := Cell(before, row, slots, parallel, timeSteps, sampleSize);
    assert Cell(middle, row, slots, parallel, timeSteps, sampleSize) == was;
    if row < |refs| {
      PackedSlotRow(middle, slots, refs, parallel, timeSteps, elementSize, sampleSize, row);
    } else {
      PackedSlotKeepsLaterRow(middle, slots, refs, parallel, timeSteps, elementSize, sampleSize, row);
    }
  }

  /** Every byte of a buffer of P slots and T time steps lies in exactly the cell of some
      time step and slot. */
  lemma CellOf(p: nat, parallel: nat, timeSteps: nat, sampleSize: nat) returns (row: nat, slot: nat)
    requires p < parallel * timeSteps * sampleSize
    ensures row < timeSteps && slot < parallel
    ensures SampleOffset(row, slot, parallel, sampleSize) <= p < SampleOffset(row, slot, parallel, sampleSize) + sampleSize
  {
    ProductPositive(parallel, timeSteps, sampleSize);
    var cell := Quotient(p, sampleSize);
    assert parallel * timeSteps * sampleSize == timeSteps * parallel * sampleSize;
    assert cell < timeSteps * parallel by {
      if cell >= timeSteps * parallel {
        MulLeMonotone(timeSteps * parallel, cell, sampleSize);
      }
    }
    row := Quotient(cell, parallel);
    slot := cell - row * parallel;
    assert row < timeSteps by {
      if row >= timeSteps {
        MulLeMonotone(timeSteps, row, parallel);
      }
    }
  }

  /** A positive product has positive factors. */
  lemma ProductPositive(a: nat, b: nat, c: nat)
    requires a * b * c > 0
    ensures a > 0 && b > 0 && c > 0
  {
  }

  /** The quotient of n by a positive d, with its defining bounds. */
  lemma Quotient(n: nat, d: nat) returns (q: nat)
    requires d > 0
    ensures q * d <= n < q * d + d
  {
    q := n / d;
  }

  /** SlotsPacked fixes the whole buffer: two buffers packed from the same bytes and
      slots are equal. */
  lemma PackedUnique(before: seq<bv8>, x: seq<bv8>, y: seq<bv8>, buffer: SequenceBuffer, parallel: nat, slots: nat, timeSteps: nat, elementSize: nat, sampleSize: nat)
    requires AllCounted(buffer, parallel) && |before| == parallel * timeSteps * sampleSize
    requires PendingCopyable(buffer, parallel, elementSize, sampleSize)
    requires SlotsPacked(before, x, buffer, parallel, slots, timeSteps, elementSize, sampleSize)
    requires SlotsPacked(before, y, buffer, parallel, slots, timeSteps, elementSize, sampleSize)
    ensures x == y
  {
    forall p | 0 <= p < |x| ensures x[p] == y[p] {
      var row, slot := CellOf(p, parallel, timeSteps, sampleSize);
      var expected := PackedCell(before, buffer, parallel, slots, timeSteps, elementSize, sampleSize, row, slot);
      assert Cell(x, row, slot, parallel, timeSteps, sampleSize) == expected;
      assert Cell(y, row, slot, parallel, timeSteps, sampleSize) == expected;
      SameCellSameByte(x, y, row, slot, parallel, timeSteps, sampleSize, p);
    }
  }

  lemma SameCellSameByte(x: seq<bv8>, y: seq<bv8>, row: nat, slot: nat, parallel: nat, timeSteps: nat, sampleSize: nat, p: nat)
    requires row < timeSteps && slot < parallel
    requires |x| == parallel * timeSteps * sampleSize && |y| == |x|
    requires InRow(p, row, slot, parallel, sampleSize)
    requires Cell(x, row, slot, parallel, timeSteps, sampleSize) == Cell(y, row, slot, parallel, timeSteps, sampleSize)
    ensures p < |x| && x[p] == y[p]
  {
    SampleInBuffer(row, slot, parallel, timeSteps, sampleSize);
    var at := SampleOffset(row, slot, parallel, sampleSize);
    assert x[p] == x[at..at + sampleSize][p - at];
    assert y[p] == y[at..at + sampleSize][p - at];
  }
}
