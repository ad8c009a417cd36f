/** PackSequence and ReadMinibatch of BpttPacker.cpp as the code stands, where it departs
    from what the rest of the model packs: the sample cursor is never advanced, the
    buffered count is never lowered, a sequence starting inside the window is recorded at
    the window's end, and the first ReadMinibatch finds nothing to pack. Each member here
    is set against the corrected behaviour the packer model follows. */
module AsWritten {
  import opened BpttTypes
  import opened LaneQueue
  import opened SequenceBuffers

  /** PackSequence's loop as written (BpttPacker.cpp:161-187) over n samples of a lane:
      a front sequence whose cursor reached its end is popped, then the sample under the
      cursor is copied; the cursor itself is never moved. Returns the samples copied into
      time steps 0..n-1 and the lane left behind. */
  function PackLaneAsWritten(lane: Lane, n: nat): (r: (seq<SampleRef>, Lane))
    requires Positioned(lane) && lane.queue != []
    ensures |r.0| == n
    ensures r.1 == lane
    ensures forall i :: 0 <= i < n ==> r.0[i] == SampleRef(lane.queue[0], lane.position)
  {
    if n == 0 then ([], lane)
    else
      var (window, now) := PackLaneAsWritten(lane, n - 1);
      var front := if now.position >= now.queue[0].numberOfSamples then Popped(now) else now;
      (window + [SampleRef(front.queue[0], front.position)], front)
  }

  /** Lines 166-167: the cursor reset and the front sequence popped. */
  function Popped(lane: Lane): Lane {
    Lane(if lane.queue == [] then [] else lane.queue[1..], 0)
  }

  /** The buffer PackSequence leaves as written: the lane the loop leaves, and the count
      of the slot as it was (BpttPacker.cpp:167 pops without lowering it). */
  function ConsumeSlotAsWritten(buffer: SequenceBuffer, slot: nat, n: nat): SequenceBuffer
    requires slot < |buffer.preparedSequences| && slot < |buffer.sequenceSamplePosition|
    requires Positioned(LaneOf(buffer, slot)) && buffer.preparedSequences[slot] != []
  {
    var after := PackLaneAsWritten(LaneOf(buffer, slot), n).1;
    SequenceBuffer(buffer.preparedSequences[slot := after.queue], buffer.preparedSequenceLength,
                   buffer.sequenceSamplePosition[slot := after.position])
  }

  /** As written a slot never drains: packing leaves its queue, cursor and count as they
      were, so every minibatch packs the same window again and the epoch never ends. */
  lemma SlotNeverDrainsAsWritten(buffer: SequenceBuffer, slot: nat, n: nat)
    requires slot < |buffer.preparedSequences| && slot < |buffer.sequenceSamplePosition|
    requires Positioned(LaneOf(buffer, slot)) && buffer.preparedSequences[slot] != []
    ensures ConsumeSlotAsWritten(buffer, slot, n) == buffer
  {
    var after := PackLaneAsWritten(LaneOf(buffer, slot), n).1;
    assert buffer.preparedSequences[slot := after.queue] == buffer.preparedSequences;
    assert buffer.sequenceSamplePosition[slot := after.position] == buffer.sequenceSamplePosition;
  }

  /** A slot holding one sequence of two samples, packed over two time steps: as written
      both time steps receive sample 0, where the slot's pending samples are 0 then 1. */
  lemma PackLaneRepeatsSampleAsWritten()
    ensures var s := DenseSequence(2, [7, 9]);
            var lane := Lane([s], 0);
            && Positioned(lane)
            && PackLaneAsWritten(lane, 2).0 == [SampleRef(s, 0), SampleRef(s, 0)]
            && Pending(lane)[..2] == [SampleRef(s, 0), SampleRef(s, 1)]
  {
    var s := DenseSequence(2, [7, 9]);
    var lane := Lane([s], 0);
    var window := PackLaneAsWritten(lane, 2).0;
    assert window[0] == SampleRef(s, 0) && window[1] == SampleRef(s, 0);
    assert [s][..0] == [];
    assert AllRefs([s]) == Samples(s);
    assert Samples(s)[0] == SampleRef(s, 0) && Samples(s)[1] == SampleRef(s, 1);
  }

  /** The record line 170-174 adds when a new sequence starts at time step i of a window
      of numberOfSamples samples: it begins at numberOfSamples, not at i, and the length
      argument is numberOfSamples plus the sequence's sample count. */
  function NewSequenceRecordAsWritten(slot: nat, i: nat, numberOfSamples: nat, next: SequenceData): LayoutEntry {
    LayoutEntry(slot, SequenceSpan(numberOfSamples, numberOfSamples + next.numberOfSamples, false))
  }

  /** A window of 3 samples over a one-sample sequence a and a two-sample sequence b:
      b starts at time step 1 and SequenceSpans records it there with its 2 samples,
      where the record as written places it at 3, past the window, with length 5. */
  lemma NewSequenceRecordPastWindowAsWritten()
    ensures var a := DenseSequence(1, [7]);
            var b := DenseSequence(2, [8, 9]);
            && SequenceSpans(0, [a, b], 0, 2)[1] == LayoutEntry(0, SequenceSpan(1, 2, false))
            && NewSequenceRecordAsWritten(0, 1, 3, b) == LayoutEntry(0, SequenceSpan(3, 5, false))
  {
    var a := DenseSequence(1, [7]);
    var b := DenseSequence(2, [8, 9]);
    assert [a, b][..1] == [a];
    assert [a][..0] == [];
  }

  /** ReadMinibatch as written (BpttPacker.cpp:107-111) asks NothingToPack of the first
      stream's buffer before any slot was refilled, and InitializePreparedSequences
      (lines 97-100) is empty: on the buffers the constructor leaves, the first call ends
      the epoch whatever the transformer still holds. */
  lemma FirstReadEndsEpochAsWritten(parallel: nat)
    ensures NothingToPack(EmptyBuffer(parallel))
  {
  }
}
