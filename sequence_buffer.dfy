/** SequenceBuffer of BpttPacker.cpp (one per stream) and the effect of the packer's steps
    on the buffers of all streams, as functions: refilling a slot from the transformer
    (GetSequencesToSlot), topping every slot up, and packing every slot of a stream. */
module SequenceBuffers {
  import opened BpttTypes
  import opened SampleCopy
  import opened LaneQueue
  import opened SlotImage

  /** Per slot: the prepared sequences, the samples of them not packed yet, and the cursor
      on the front sequence. */
  datatype SequenceBuffer = SequenceBuffer(
    preparedSequences: seq<seq<SequenceData>>,
    preparedSequenceLength: seq<nat>,
    sequenceSamplePosition: seq<nat>)

  predicate Sized(buffer: SequenceBuffer, parallel: nat) {
    && |buffer.preparedSequences| == parallel
    && |buffer.preparedSequenceLength| == parallel
    && |buffer.sequenceSamplePosition| == parallel
  }

  predicate AllSized(buffers: seq<SequenceBuffer>, parallel: nat) {
    forall s :: 0 <= s < |buffers| ==>
      && |buffers[s].preparedSequences| == parallel
      && |buffers[s].preparedSequenceLength| == parallel
      && |buffers[s].sequenceSamplePosition| == parallel
  }

  /** A buffer of P empty slots. */
  function EmptyBuffer(parallel: nat): (r: SequenceBuffer)
    ensures Sized(r, parallel)
  {
    SequenceBuffer(seq(parallel, _ => []), seq(parallel, _ => 0), seq(parallel, _ => 0))
  }

  function LaneOf(buffer: SequenceBuffer, slot: nat): Lane
    requires slot < |buffer.preparedSequences| && slot < |buffer.sequenceSamplePosition|
  {
    Lane(buffer.preparedSequences[slot], buffer.sequenceSamplePosition[slot])
  }

  /** NothingToPack: no slot holds a prepared sequence. */
  predicate NothingToPack(buffer: SequenceBuffer) {
    forall slot :: 0 <= slot < |buffer.preparedSequences| ==> buffer.preparedSequences[slot] == []
  }

  /** A slot's cursor is in place and its count is the number of samples left to pack. */
  predicate Counted(buffer: SequenceBuffer, slot: nat)
    requires slot < |buffer.preparedSequences| && slot < |buffer.preparedSequenceLength|
    requires slot < |buffer.sequenceSamplePosition|
  {
    && Positioned(LaneOf(buffer, slot))
    && buffer.preparedSequenceLength[slot] == Buffered(LaneOf(buffer, slot))
  }

  /** A slot is counted and every queued sequence fits the stream. */
  predicate SlotValid(buffer: SequenceBuffer, slot: nat, stream: StreamDescription)
    requires slot < |buffer.preparedSequences| && slot < |buffer.preparedSequenceLength|
    requires slot < |buffer.sequenceSamplePosition|
  {
    && IsFloatingPoint(stream.elementType)
    && Counted(buffer, slot)
    && forall j :: 0 <= j < |buffer.preparedSequences[slot]| ==> Fits(buffer.preparedSequences[slot][j], stream)
  }

  predicate BufferValid(buffer: SequenceBuffer, parallel: nat, stream: StreamDescription) {
    && Sized(buffer, parallel)
    && forall slot :: 0 <= slot < parallel ==> SlotValid(buffer, slot, stream)
  }

  predicate AllValid(buffers: seq<SequenceBuffer>, parallel: nat, streams: seq<StreamDescription>) {
    && |buffers| == |streams|
    && AllSized(buffers, parallel)
    && forall s :: 0 <= s < |buffers| ==> BufferValid(buffers[s], parallel, streams[s])
  }

  /** The streams are in step: for every slot, each stream's queue has the same sample
      counts, cursor and buffered count as the first stream's. */
  predicate InStep(buffers: seq<SequenceBuffer>, parallel: nat)
    requires |buffers| > 0 && AllSized(buffers, parallel)
  {
    forall s, slot :: 0 <= s < |buffers| && 0 <= slot < parallel ==>
      && Counts(buffers[s].preparedSequences[slot]) == Counts(buffers[0].preparedSequences[slot])
      && buffers[s].sequenceSamplePosition[slot] == buffers[0].sequenceSamplePosition[slot]
      && buffers[s].preparedSequenceLength[slot] == buffers[0].preparedSequenceLength[slot]
  }

  /** Buffers of empty slots, one per stream, are valid and in step. */
  lemma EmptyValid(count: nat, parallel: nat, streams: seq<StreamDescription>)
    requires count == |streams| >= 1
    requires forall s :: 0 <= s < |streams| ==> IsFloatingPoint(streams[s].elementType)
    ensures AllValid(seq(count, _ => EmptyBuffer(parallel)), parallel, streams)
    ensures InStep(seq(count, _ => EmptyBuffer(parallel)), parallel)
  {
    var buffers := seq(count, _ => EmptyBuffer(parallel));
    forall s | 0 <= s < count ensures BufferValid(buffers[s], parallel, streams[s]) {
      forall slot | 0 <= slot < parallel ensures SlotValid(buffers[s], slot, streams[s]) {
        assert LaneOf(buffers[s], slot) == Lane([], 0);
      }
    }
  }

  /** NothingToPack holds exactly when no slot has a sample left to pack. */
  lemma NothingToPackIffNoSamples(buffer: SequenceBuffer, parallel: nat, stream: StreamDescription)
    requires BufferValid(buffer, parallel, stream)
    ensures NothingToPack(buffer) <==> forall slot :: 0 <= slot < parallel ==> buffer.preparedSequenceLength[slot] == 0
  {
    forall slot | 0 <= slot < parallel
      ensures buffer.preparedSequences[slot] == [] <==> buffer.preparedSequenceLength[slot] == 0
    {
      assert SlotValid(buffer, slot, stream);
      EmptyIffNothingBuffered(LaneOf(buffer, slot));
    }
  }

  // ---------------------------------------------------------------------------------
  // Refilling a slot (GetSequencesToSlot)

  /** One fetched sequence appended to a slot's queue, its samples added to the count. */
  function PushSequence(buffer: SequenceBuffer, slot: nat, sequence: SequenceData): (r: SequenceBuffer)
    requires slot < |buffer.preparedSequences| && slot < |buffer.preparedSequenceLength|
  {
    buffer.(preparedSequences := buffer.preparedSequences[slot := buffer.preparedSequences[slot] + [sequence]],
            preparedSequenceLength := buffer.preparedSequenceLength[slot := buffer.preparedSequenceLength[slot] + sequence.numberOfSamples])
  }

  /** Appending a fitting sequence keeps the slot valid and appends its samples, in order,
      to the ones pending; the other slots are untouched. */
  lemma PushSequenceValid(buffer: SequenceBuffer, parallel: nat, stream: StreamDescription, slot: nat, sequence: SequenceData)
    requires BufferValid(buffer, parallel, stream) && slot < parallel
    requires IsFloatingPoint(stream.elementType) && Fits(sequence, stream)
    ensures BufferValid(PushSequence(buffer, slot, sequence), parallel, stream)
    ensures var before := LaneOf(buffer, slot);
            var after := LaneOf(PushSequence(buffer, slot, sequence), slot);
            && Positioned(before) && Positioned(after)
            && Pending(after) == Pending(before) + Samples(sequence)
  {
    var r := PushSequence(buffer, slot, sequence);
    forall other | 0 <= other < parallel ensures SlotValid(r, other, stream) {
      if other == slot {
        PushSlotValid(buffer, parallel, stream, slot, sequence);
      } else {
        PushOtherSlotValid(buffer, parallel, stream, slot, other, sequence);
      }
    }
    PushSlotValid(buffer, parallel, stream, slot, sequence);
  }

  /** The slot pushed to stays counted and gains the sequence's samples at its end. */
  lemma PushSlotValid(buffer: SequenceBuffer, parallel: nat, stream: StreamDescription, slot: nat, sequence: SequenceData)
    requires Sized(buffer, parallel) && slot < parallel && SlotValid(buffer, slot, stream)
    requires Fits(sequence, stream)
    ensures Sized(PushSequence(buffer, slot, sequence), parallel)
    ensures SlotValid(PushSequence(buffer, slot, sequence), slot, stream)
    ensures var before := LaneOf(buffer, slot);
            var after := LaneOf(PushSequence(buffer, slot, sequence), slot);
            && Positioned(before) && Positioned(after)
            && Pending(after) == Pending(before) + Samples(sequence)
  {
    var q := buffer.preparedSequences[slot];
    assert LaneOf(PushSequence(buffer, slot, sequence), slot) == Lane(q + [sequence], buffer.sequenceSamplePosition[slot]);
    assert (q + [sequence])[..|q|] == q;
    assert TotalCount(q + [sequence]) == TotalCount(q) + sequence.numberOfSamples;
    assert AllRefs(q + [sequence]) == AllRefs(q) + Samples(sequence);
  }

  /** Every other slot keeps its lane, so stays valid. */
  lemma PushOtherSlotValid(buffer: SequenceBuffer, parallel: nat, stream: StreamDescription, slot: nat, other: nat, sequence: SequenceData)
    requires Sized(buffer, parallel) && slot < parallel && other < parallel && other != slot
    requires SlotValid(buffer, other, stream)
    ensures SlotValid(PushSequence(buffer, slot, sequence), other, stream)
  {
    assert LaneOf(PushSequence(buffer, slot, sequence), other) == LaneOf(buffer, other);
  }

  /** One batch of the transformer, one sequence per stream, appended to the same slot of
      every stream. */
  function PushBatch(buffers: seq<SequenceBuffer>, parallel: nat, slot: nat, batch: seq<SequenceData>): (r: seq<SequenceBuffer>)
    requires slot < parallel && |batch| == |buffers|
    requires AllSized(buffers, parallel)
    ensures |r| == |buffers| && AllSized(r, parallel)
  {
    seq(|buffers|, s requires 0 <= s < |buffers| => PushSequence(buffers[s], slot, batch[s]))
  }

  /** Pushing a fitting batch keeps every stream valid and the streams in step. */
  lemma PushBatchValid(buffers: seq<SequenceBuffer>, parallel: nat, streams: seq<StreamDescription>, slot: nat, batch: seq<SequenceData>)
    requires AllValid(buffers, parallel, streams) && slot < parallel && BatchFits(batch, streams)
    ensures AllValid(PushBatch(buffers, parallel, slot, batch), parallel, streams)
    ensures InStep(buffers, parallel) ==> InStep(PushBatch(buffers, parallel, slot, batch), parallel)
  {
    var r := PushBatch(buffers, parallel, slot, batch);
    forall s | 0 <= s < |buffers| ensures BufferValid(r[s], parallel, streams[s]) {
      PushSequenceValid(buffers[s], parallel, streams[s], slot, batch[s]);
    }
    if InStep(buffers, parallel) {
      forall s, k | 0 <= s < |r| && 0 <= k < parallel
        ensures Counts(r[s].preparedSequences[k]) == Counts(r[0].preparedSequences[k])
      {
        if k == slot {
          var a := buffers[s].preparedSequences[k];
          var b := buffers[0].preparedSequences[k];
          assert Counts(a + [batch[s]]) == Counts(a) + [batch[s].numberOfSamples];
          assert Counts(b + [batch[0]]) == Counts(b) + [batch[0].numberOfSamples];
        }
      }
    }
  }

  /** Every batch holds one sequence per stream. */
  predicate Shaped(batches: seq<seq<SequenceData>>, width: nat) {
    forall b :: 0 <= b < |batches| ==> |batches[b]| == width
  }

  /** Every batch has one sequence per stream, each fitting its stream. */
  predicate BatchesFit(batches: seq<seq<SequenceData>>, streams: seq<StreamDescription>) {
    forall b :: 0 <= b < |batches| ==> BatchFits(batches[b], streams)
  }

  /** The buffers and the transformer's remaining batches. */
  datatype Fill = Fill(buffers: seq<SequenceBuffer>, remaining: seq<seq<SequenceData>>)

  /** GetSequencesToSlot: while the first stream's count of the slot is below T and the
      transformer has a batch, the next batch is appended to the slot of every stream. */
  function Refill(buffers: seq<SequenceBuffer>, parallel: nat, slot: nat, remaining: seq<seq<SequenceData>>, timeSteps: nat): (f: Fill)
    requires slot < parallel && |buffers| > 0 && AllSized(buffers, parallel)
    requires Shaped(remaining, |buffers|)
    ensures |f.buffers| == |buffers| && AllSized(f.buffers, parallel) && Shaped(f.remaining, |buffers|)
    decreases |remaining|
  {
    if timeSteps <= buffers[0].preparedSequenceLength[slot] || remaining == [] then Fill(buffers, remaining)
    else Refill(PushBatch(buffers, parallel, slot, remaining[0]), parallel, slot, remaining[1..], timeSteps)
  }

  /** A batch adds its first sequence's samples to the first stream's count of the slot,
      and changes no other slot. */
  lemma PushBatchCount(buffers: seq<SequenceBuffer>, parallel: nat, slot: nat, batch: seq<SequenceData>, other: nat)
    requires slot < parallel && |batch| == |buffers| > 0 && AllSized(buffers, parallel) && other < parallel
    ensures PushBatch(buffers, parallel, slot, batch)[0].preparedSequenceLength[other]
            == buffers[0].preparedSequenceLength[other] + if other == slot then batch[0].numberOfSamples else 0
  {
  }

  /** After GetSequencesToSlot the first stream's slot holds at least T samples, or the
      transformer has nothing left. */
  lemma {:induction false} RefillStops(buffers: seq<SequenceBuffer>, parallel: nat, slot: nat, remaining: seq<seq<SequenceData>>, timeSteps: nat)
    requires slot < parallel && |buffers| > 0 && AllSized(buffers, parallel)
    requires Shaped(remaining, |buffers|)
    ensures var f := Refill(buffers, parallel, slot, remaining, timeSteps);
            f.buffers[0].preparedSequenceLength[slot] >= timeSteps || f.remaining == []
    decreases |remaining|
  {
    if !(timeSteps <= buffers[0].preparedSequenceLength[slot] || remaining == []) {
      RefillStops(PushBatch(buffers, parallel, slot, remaining[0]), parallel, slot, remaining[1..], timeSteps);
    }
  }

  /** GetSequencesToSlot fetches nothing for a slot that already holds T samples. */
  lemma RefillSatisfied(buffers: seq<SequenceBuffer>, parallel: nat, slot: nat, remaining: seq<seq<SequenceData>>, timeSteps: nat)
    requires slot < parallel && |buffers| > 0 && AllSized(buffers, parallel)
    requires Shaped(remaining, |buffers|) && timeSteps <= buffers[0].preparedSequenceLength[slot]
    ensures Refill(buffers, parallel, slot, remaining, timeSteps) == Fill(buffers, remaining)
  {
  }

  /** Refilling keeps the buffers valid and in step, and takes its batches from the front
      of the transformer's, in order. */
  lemma {:induction false} RefillValid(buffers: seq<SequenceBuffer>, parallel: nat, streams: seq<StreamDescription>, slot: nat, remaining: seq<seq<SequenceData>>, timeSteps: nat)
    requires AllValid(buffers, parallel, streams) && |buffers| > 0 && slot < parallel && BatchesFit(remaining, streams)
    ensures var f := Refill(buffers, parallel, slot, remaining, timeSteps);
            && AllValid(f.buffers, parallel, streams)
            && (InStep(buffers, parallel) ==> InStep(f.buffers, parallel))
            && BatchesFit(f.remaining, streams)
            && |f.remaining| <= |remaining|
            && f.remaining == remaining[|remaining| - |f.remaining|..]
    decreases |remaining|
  {
    RefillTakesFront(buffers, parallel, slot, remaining, timeSteps);
    if !(timeSteps <= buffers[0].preparedSequenceLength[slot] || remaining == []) {
      var pushed := PushBatch(buffers, parallel, slot, remaining[0]);
      PushBatchValid(buffers, parallel, streams, slot, remaining[0]);
      RefillValid(pushed, parallel, streams, slot, remaining[1..], timeSteps);
    }
  }

  /** Refilling takes its batches from the front of the transformer's, in order. */
  lemma {:induction false} RefillTakesFront(buffers: seq<SequenceBuffer>, parallel: nat, slot: nat, remaining: seq<seq<SequenceData>>, timeSteps: nat)
    requires slot < parallel && |buffers| > 0 && AllSized(buffers, parallel)
    requires Shaped(remaining, |buffers|)
    ensures var f := Refill(buffers, parallel, slot, remaining, timeSteps);
            && |f.remaining| <= |remaining|
            && f.remaining == remaining[|remaining| - |f.remaining|..]
    decreases |remaining|
  {
    if !(timeSteps <= buffers[0].preparedSequenceLength[slot] || remaining == []) {
      var pushed := PushBatch(buffers, parallel, slot, remaining[0]);
      RefillTakesFront(pushed, parallel, slot, remaining[1..], timeSteps);
      var f := Refill(pushed, parallel, slot, remaining[1..], timeSteps);
      assert remaining[1..][|remaining[1..]| - |f.remaining|..] == remaining[|remaining| - |f.remaining|..];
    }
  }

  /** Refilling one slot never lowers the first stream's count of any slot. */
  lemma {:induction false} RefillGrows(buffers: seq<SequenceBuffer>, parallel: nat, slot: nat, remaining: seq<seq<SequenceData>>, timeSteps: nat, other: nat)
    requires slot < parallel && |buffers| > 0 && AllSized(buffers, parallel) && other < parallel
    requires Shaped(remaining, |buffers|)
    ensures Refill(buffers, parallel, slot, remaining, timeSteps).buffers[0].preparedSequenceLength[other]
            >= buffers[0].preparedSequenceLength[other]
    decreases |remaining|
  {
    if !(timeSteps <= buffers[0].preparedSequenceLength[slot] || remaining == []) {
      PushBatchCount(buffers, parallel, slot, remaining[0], other);
      RefillGrows(PushBatch(buffers, parallel, slot, remaining[0]), parallel, slot, remaining[1..], timeSteps, other);
    }
  }

  /** Refilling a slot from a transformer that has a batch leaves a sample in it. */
  lemma RefillFetches(buffers: seq<SequenceBuffer>, parallel: nat, streams: seq<StreamDescription>, slot: nat, remaining: seq<seq<SequenceData>>, timeSteps: nat)
    requires AllValid(buffers, parallel, streams) && |buffers| > 0 && slot < parallel && BatchesFit(remaining, streams)
    requires remaining != [] && timeSteps >= 1
    ensures Refill(buffers, parallel, slot, remaining, timeSteps).buffers[0].preparedSequenceLength[slot] >= 1
  {
    if buffers[0].preparedSequenceLength[slot] < timeSteps {
      assert BatchFits(remaining[0], streams);
      PushBatchCount(buffers, parallel, slot, remaining[0], slot);
      RefillGrows(PushBatch(buffers, parallel, slot, remaining[0]), parallel, slot, remaining[1..], timeSteps, slot);
    }
  }

  /** InitializePreparedSequences: GetSequencesToSlot for the first `slots` slots in turn. */
  function TopUp(buffers: seq<SequenceBuffer>, parallel: nat, remaining: seq<seq<SequenceData>>, timeSteps: nat, slots: nat): (f: Fill)
    requires slots <= parallel && |buffers| > 0 && AllSized(buffers, parallel)
    requires Shaped(remaining, |buffers|)
    ensures |f.buffers| == |buffers| && AllSized(f.buffers, parallel)
    ensures Shaped(f.remaining, |buffers|)
    decreases slots
  {
    if slots == 0 then Fill(buffers, remaining)
    else
      var f := TopUp(buffers, parallel, remaining, timeSteps, slots - 1);
      Refill(f.buffers, parallel, slots - 1, f.remaining, timeSteps)
  }

  /** Topping up keeps the buffers valid and in step, and takes batches from the front. */
  lemma {:induction false} TopUpValid(buffers: seq<SequenceBuffer>, parallel: nat, streams: seq<StreamDescription>, remaining: seq<seq<SequenceData>>, timeSteps: nat, slots: nat)
    requires AllValid(buffers, parallel, streams) && |buffers| > 0 && slots <= parallel && BatchesFit(remaining, streams)
    ensures var f := TopUp(buffers, parallel, remaining, timeSteps, slots);
            && AllValid(f.buffers, parallel, streams)
            && (InStep(buffers, parallel) ==> InStep(f.buffers, parallel))
            && BatchesFit(f.remaining, streams)
    decreases slots
  {
    if slots > 0 {
      TopUpValid(buffers, parallel, streams, remaining, timeSteps, slots - 1);
      var f := TopUp(buffers, parallel, remaining, timeSteps, slots - 1);
      RefillValid(f.buffers, parallel, streams, slots - 1, f.remaining, timeSteps);
    }
  }

  /** After InitializePreparedSequences every topped-up slot of the first stream holds at
      least T samples, unless the transformer ran out. */
  lemma {:induction false} TopUpStops(buffers: seq<SequenceBuffer>, parallel: nat, remaining: seq<seq<SequenceData>>, timeSteps: nat, slots: nat, k: nat)
    requires slots <= parallel && |buffers| > 0 && AllSized(buffers, parallel)
    requires Shaped(remaining, |buffers|) && k < slots
    ensures var f := TopUp(buffers, parallel, remaining, timeSteps, slots);
            f.buffers[0].preparedSequenceLength[k] >= timeSteps || f.remaining == []
    decreases slots
  {
    var f := TopUp(buffers, parallel, remaining, timeSteps, slots - 1);
    RefillStops(f.buffers, parallel, slots - 1, f.remaining, timeSteps);
    if k < slots - 1 {
      TopUpStops(buffers, parallel, remaining, timeSteps, slots - 1, k);
      RefillGrows(f.buffers, parallel, slots - 1, f.remaining, timeSteps, k);
    }
  }

  /** Topping up more slots never lowers the first stream's count of a slot. */
  lemma {:induction false} TopUpGrows(buffers: seq<SequenceBuffer>, parallel: nat, remaining: seq<seq<SequenceData>>, timeSteps: nat, from: nat, slots: nat, k: nat)
    requires from <= slots <= parallel && |buffers| > 0 && AllSized(buffers, parallel) && k < parallel
    requires Shaped(remaining, |buffers|)
    ensures TopUp(buffers, parallel, remaining, timeSteps, slots).buffers[0].preparedSequenceLength[k]
            >= TopUp(buffers, parallel, remaining, timeSteps, from).buffers[0].preparedSequenceLength[k]
    decreases slots
  {
    if from < slots {
      TopUpGrows(buffers, parallel, remaining, timeSteps, from, slots - 1, k);
      var f := TopUp(buffers, parallel, remaining, timeSteps, slots - 1);
      RefillGrows(f.buffers, parallel, slots - 1, f.remaining, timeSteps, k);
    }
  }

  /** An exhausted transformer tops up nothing. */
  lemma {:induction false} TopUpExhausted(buffers: seq<SequenceBuffer>, parallel: nat, timeSteps: nat, slots: nat)
    requires slots <= parallel && |buffers| > 0 && AllSized(buffers, parallel)
    ensures TopUp(buffers, parallel, [], timeSteps, slots).buffers == buffers
    ensures TopUp(buffers, parallel, [], timeSteps, slots).remaining == []
    decreases slots
  {
    if slots > 0 {
      TopUpExhausted(buffers, parallel, timeSteps, slots - 1);
    }
  }

  /** After topping up every slot, the first stream has nothing to pack exactly when the
      transformer had nothing left and nothing was buffered: the end of the epoch. */
  lemma TopUpEmptyIff(buffers: seq<SequenceBuffer>, parallel: nat, streams: seq<StreamDescription>, remaining: seq<seq<SequenceData>>, timeSteps: nat)
    requires AllValid(buffers, parallel, streams) && |buffers| > 0 && BatchesFit(remaining, streams)
    requires parallel >= 1 && timeSteps >= 1
    ensures NothingToPack(TopUp(buffers, parallel, remaining, timeSteps, parallel).buffers[0])
            <==> remaining == [] && NothingToPack(buffers[0])
  {
    var f := TopUp(buffers, parallel, remaining, timeSteps, parallel);
    TopUpValid(buffers, parallel, streams, remaining, timeSteps, parallel);
    assert BufferValid(buffers[0], parallel, streams[0]) && BufferValid(f.buffers[0], parallel, streams[0]);
    NothingToPackIffNoSamples(buffers[0], parallel, streams[0]);
    NothingToPackIffNoSamples(f.buffers[0], parallel, streams[0]);
    if remaining == [] {
      TopUpExhausted(buffers, parallel, timeSteps, parallel);
    } else {
      TopUpGrows(buffers, parallel, remaining, timeSteps, 1, parallel, 0);
      RefillFetches(buffers, parallel, streams, 0, remaining, timeSteps);
    }
    forall k | 0 <= k < parallel ensures f.buffers[0].preparedSequenceLength[k] >= buffers[0].preparedSequenceLength[k] {
      TopUpGrows(buffers, parallel, remaining, timeSteps, 0, parallel, k);
    }
  }
}
