/** The bytes of a stream buffer after PackSequence has copied a slot's samples into it:
    sample i of the slot goes to time step i, at SampleOffset(i, slot, P, sampleSize). */
module SlotImage {
  import opened BpttTypes
  import opened SampleCopy
  import opened LaneQueue

  /** Every referenced sample can be copied into sampleSize bytes. */
  predicate RefsCopyable(refs: seq<SampleRef>, elementSize: nat, sampleSize: nat) {
    forall i :: 0 <= i < |refs| ==> CopyableSample(refs[i].sequence, refs[i].sample, elementSize, sampleSize)
  }

  /** Byte p lies in the bytes of time step `row` of the slot. */
  predicate InRow(p: int, row: nat, slot: nat, parallel: nat, sampleSize: nat) {
    SampleOffset(row, slot, parallel, sampleSize) <= p < SampleOffset(row, slot, parallel, sampleSize) + sampleSize
  }

  /** The buffer after one sample was copied into time step `row` of slot `slot`, over
      the bytes found there; nothing else changes. */
  function CopyToRow(bytes: seq<bv8>, row: nat, slot: nat, parallel: nat, timeSteps: nat, elementSize: nat, sampleSize: nat, ref: SampleRef): (r: seq<bv8>)
    requires slot < parallel && row < timeSteps && |bytes| == parallel * timeSteps * sampleSize
    requires CopyableSample(ref.sequence, ref.sample, elementSize, sampleSize)
    ensures |r| == |bytes|
    ensures SampleOffset(row, slot, parallel, sampleSize) + sampleSize <= |bytes|
    ensures var at := SampleOffset(row, slot, parallel, sampleSize);
            r[at..at + sampleSize] == CopySample(bytes[at..at + sampleSize], ref.sequence, ref.sample, elementSize)
    ensures forall p :: 0 <= p < |bytes| && !InRow(p, row, slot, parallel, sampleSize) ==> r[p] == bytes[p]
  {
    SampleInBuffer(row, slot, parallel, timeSteps, sampleSize);
    var at := SampleOffset(row, slot, parallel, sampleSize);
    var r := WriteAt(bytes, at, CopySample(bytes[at..at + sampleSize], ref.sequence, ref.sample, elementSize));
    assert r[at..at + sampleSize] == CopySample(bytes[at..at + sampleSize], ref.sequence, ref.sample, elementSize);
    r
  }

  /** CopyToRow is one write of the copied sample at the sample's offset. */
  lemma CopyToRowAt(bytes: seq<bv8>, row: nat, slot: nat, parallel: nat, timeSteps: nat, elementSize: nat, sampleSize: nat, ref: SampleRef)
    requires slot < parallel && row < timeSteps && |bytes| == parallel * timeSteps * sampleSize
    requires CopyableSample(ref.sequence, ref.sample, elementSize, sampleSize)
    ensures SampleOffset(row, slot, parallel, sampleSize) + sampleSize <= |bytes|
    ensures var at := SampleOffset(row, slot, parallel, sampleSize);
            CopyToRow(bytes, row, slot, parallel, timeSteps, elementSize, sampleSize, ref)
            == WriteAt(bytes, at, CopySample(bytes[at..at + sampleSize], ref.sequence, ref.sample, elementSize))
  {
    SampleInBuffer(row, slot, parallel, timeSteps, sampleSize);
  }

  /** A buffer of P slots and T time steps after the samples `refs` were copied, one per
      time step from 0, into slot `slot`. */
  function PackedSlot(bytes: seq<bv8>, slot: nat, refs: seq<SampleRef>, parallel: nat, timeSteps: nat, elementSize: nat, sampleSize: nat): (r: seq<bv8>)
    requires slot < parallel && |refs| <= timeSteps && |bytes| == parallel * timeSteps * sampleSize
    requires RefsCopyable(refs, elementSize, sampleSize)
    ensures |r| == |bytes|
  {
    if refs == [] then bytes
    else
      var row := |refs| - 1;
      CopyToRow(PackedSlot(bytes, slot, refs[..row], parallel, timeSteps, elementSize, sampleSize),
                row, slot, parallel, timeSteps, elementSize, sampleSize, refs[row])
  }

  /** Bytes outside the slot's first |refs| time steps are left as they were. */
  lemma {:induction false} PackedSlotUntouched(bytes: seq<bv8>, slot: nat, refs: seq<SampleRef>, parallel: nat, timeSteps: nat, elementSize: nat, sampleSize: nat, p: nat)
    requires slot < parallel && |refs| <= timeSteps && |bytes| == parallel * timeSteps * sampleSize
    requires RefsCopyable(refs, elementSize, sampleSize)
    requires p < |bytes| && forall row :: 0 <= row < |refs| ==> !InRow(p, row, slot, parallel, sampleSize)
    ensures PackedSlot(bytes, slot, refs, parallel, timeSteps, elementSize, sampleSize)[p] == bytes[p]
    decreases |refs|
  {
    if refs != [] {
      var row := |refs| - 1;
      assert !InRow(p, row, slot, parallel, sampleSize);
      PackedSlotUntouched(bytes, slot, refs[..row], parallel, timeSteps, elementSize, sampleSize, p);
    }
  }

  /** Copying a sample into one time step of a slot leaves every other time step of it. */
  lemma CopyToRowKeepsRow(bytes: seq<bv8>, row: nat, slot: nat, parallel: nat, timeSteps: nat, elementSize: nat, sampleSize: nat, ref: SampleRef, other: nat)
    requires slot < parallel && row < timeSteps && other < timeSteps && other != row
    requires |bytes| == parallel * timeSteps * sampleSize
    requires CopyableSample(ref.sequence, ref.sample, elementSize, sampleSize)
    ensures SampleOffset(other, slot, parallel, sampleSize) + sampleSize <= |bytes|
    ensures var at := SampleOffset(other, slot, parallel, sampleSize);
            CopyToRow(bytes, row, slot, parallel, timeSteps, elementSize, sampleSize, ref)[at..at + sampleSize]
            == bytes[at..at + sampleSize]
  {
    SampleInBuffer(other, slot, parallel, timeSteps, sampleSize);
    SamplesDisjoint(other, slot, row, slot, parallel, sampleSize);
  }

  /** Packing the first |refs| time steps leaves every later time step of the slot. */
  lemma PackedSlotKeepsLaterRow(bytes: seq<bv8>, slot: nat, refs: seq<SampleRef>, parallel: nat, timeSteps: nat, elementSize: nat, sampleSize: nat, row: nat)
    requires slot < parallel && |refs| <= row < timeSteps && |bytes| == parallel * timeSteps * sampleSize
    requires RefsCopyable(refs, elementSize, sampleSize)
    ensures SampleOffset(row, slot, parallel, sampleSize) + sampleSize <= |bytes|
    ensures var at := SampleOffset(row, slot, parallel, sampleSize);
            PackedSlot(bytes, slot, refs, parallel, timeSteps, elementSize, sampleSize)[at..at + sampleSize]
            == bytes[at..at + sampleSize]
  {
    SampleInBuffer(row, slot, parallel, timeSteps, sampleSize);
    var at := SampleOffset(row, slot, parallel, sampleSize);
    var after := PackedSlot(bytes, slot, refs, parallel, timeSteps, elementSize, sampleSize);
    forall p | at <= p < at + sampleSize ensures after[p] == bytes[p] {
      PackedSlotKeepsByte(bytes, slot, refs, parallel, timeSteps, elementSize, sampleSize, row, slot, p);
    }
  }

  /** A byte of time step `row` of slot `other` is left by packing the slot's first
      |refs| time steps, when that cell is not one of them. */
  lemma PackedSlotKeepsByte(bytes: seq<bv8>, slot: nat, refs: seq<SampleRef>, parallel: nat, timeSteps: nat, elementSize: nat, sampleSize: nat, row: nat, other: nat, p: nat)
    requires slot < parallel && |refs| <= timeSteps && |bytes| == parallel * timeSteps * sampleSize
    requires RefsCopyable(refs, elementSize, sampleSize)
    requires row < timeSteps && other < parallel && (other != slot || |refs| <= row)
    requires InRow(p, row, other, parallel, sampleSize)
    ensures p < |bytes|
    ensures PackedSlot(bytes, slot, refs, parallel, timeSteps, elementSize, sampleSize)[p] == bytes[p]
  {
    SampleInBuffer(row, other, parallel, timeSteps, sampleSize);
    forall r | 0 <= r < |refs| ensures !InRow(p, r, slot, parallel, sampleSize) {
      SamplesDisjoint(r, slot, row, other, parallel, sampleSize);
    }
    PackedSlotUntouched(bytes, slot, refs, parallel, timeSteps, elementSize, sampleSize, p);
  }

  /** Time step `row` of the slot holds sample `row` of refs, copied over the bytes that
      were there before packing. */
  lemma {:induction false} PackedSlotRow(bytes: seq<bv8>, slot: nat, refs: seq<SampleRef>, parallel: nat, timeSteps: nat, elementSize: nat, sampleSize: nat, row: nat)
    requires slot < parallel && |refs| <= timeSteps && |bytes| == parallel * timeSteps * sampleSize
    requires RefsCopyable(refs, elementSize, sampleSize)
    requires row < |refs|
    ensures SampleOffset(row, slot, parallel, sampleSize) + sampleSize <= |bytes|
    ensures var at := SampleOffset(row, slot, parallel, sampleSize);
            PackedSlot(bytes, slot, refs, parallel, timeSteps, elementSize, sampleSize)[at..at + sampleSize]
            == CopySample(bytes[at..at + sampleSize], refs[row].sequence, refs[row].sample, elementSize)
    decreases |refs|, 1
  {
    var last := |refs| - 1;
    if row == last {
      PackedSlotLastRow(bytes, slot, refs, parallel, timeSteps, elementSize, sampleSize);
    } else {
      PackedSlotEarlierRow(bytes, slot, refs, parallel, timeSteps, elementSize, sampleSize, row);
    }
  }

  /** A time step before the last one packed keeps what packing the earlier samples put
      there, so it holds the copy of its own sample. */
  lemma {:induction false} PackedSlotEarlierRow(bytes: seq<bv8>, slot: nat, refs: seq<SampleRef>, parallel: nat, timeSteps: nat, elementSize: nat, sampleSize: nat, row: nat)
    requires slot < parallel && |refs| <= timeSteps && |bytes| == parallel * timeSteps * sampleSize
    requires RefsCopyable(refs, elementSize, sampleSize)
    requires row + 1 < |refs|
    ensures SampleOffset(row, slot, parallel, sampleSize) + sampleSize <= |bytes|
    ensures var at := SampleOffset(row, slot, parallel, sampleSize);
            PackedSlot(bytes, slot, refs, parallel, timeSteps, elementSize, sampleSize)[at..at + sampleSize]
            == CopySample(bytes[at..at + sampleSize], refs[row].sequence, refs[row].sample, elementSize)
    decreases |refs|, 0
  {
    var last := |refs| - 1;
    var before := PackedSlot(bytes, slot, refs[..last], parallel, timeSteps, elementSize, sampleSize);
    assert refs[..last][row] == refs[row];
    PackedSlotRow(bytes, slot, refs[..last], parallel, timeSteps, elementSize, sampleSize, row);
    CopyToRowKeepsRow(before, last, slot, parallel, timeSteps, elementSize, sampleSize, refs[last], row);
  }

  /** The last time step packed holds the copy of the last sample over the bytes that were
      there before packing. */
  lemma PackedSlotLastRow(bytes: seq<bv8>, slot: nat, refs: seq<SampleRef>, parallel: nat, timeSteps: nat, elementSize: nat, sampleSize: nat)
    requires slot < parallel && 1 <= |refs| <= timeSteps && |bytes| == parallel * timeSteps * sampleSize
    requires RefsCopyable(refs, elementSize, sampleSize)
    ensures SampleOffset(|refs| - 1, slot, parallel, sampleSize) + sampleSize <= |bytes|
    ensures var at := SampleOffset(|refs| - 1, slot, parallel, sampleSize);
            PackedSlot(bytes, slot, refs, parallel, timeSteps, elementSize, sampleSize)[at..at + sampleSize]
            == CopySample(bytes[at..at + sampleSize], refs[|refs| - 1].sequence, refs[|refs| - 1].sample, elementSize)
  {
    var last := |refs| - 1;
    var before := PackedSlot(bytes, slot, refs[..last], parallel, timeSteps, elementSize, sampleSize);
    PackedSlotKeepsLaterRow(bytes, slot, refs[..last], parallel, timeSteps, elementSize, sampleSize, last);
    PackedSlotExtend(bytes, slot, refs, parallel, timeSteps, elementSize, sampleSize, last);
    assert refs[..last + 1] == refs;
    CopyToRowOver(before, bytes, PackedSlot(bytes, slot, refs, parallel, timeSteps, elementSize, sampleSize),
                  last, slot, parallel, timeSteps, elementSize, sampleSize, refs[last]);
  }

  /** Copying a sample into a time step whose bytes agree with another buffer's gives the
      copy over that buffer's bytes. */
  lemma CopyToRowOver(before: seq<bv8>, bytes: seq<bv8>, after: seq<bv8>, row: nat, slot: nat, parallel: nat, timeSteps: nat,
                      elementSize: nat, sampleSize: nat, ref: SampleRef)
    requires slot < parallel && row < timeSteps && |before| == |bytes| == parallel * timeSteps * sampleSize
    requires CopyableSample(ref.sequence, ref.sample, elementSize, sampleSize)
    requires after == CopyToRow(before, row, slot, parallel, timeSteps, elementSize, sampleSize, ref)
    requires SampleOffset(row, slot, parallel, sampleSize) + sampleSize <= |bytes|
    requires var at := SampleOffset(row, slot, parallel, sampleSize);
             before[at..at + sampleSize] == bytes[at..at + sampleSize]
    ensures var at := SampleOffset(row, slot, parallel, sampleSize);
            after[at..at + sampleSize] == CopySample(bytes[at..at + sampleSize], ref.sequence, ref.sample, elementSize)
  {
  }

  /** Packing one slot leaves every time step of every other slot as it was. */
  lemma PackedSlotKeepsOtherSlot(bytes: seq<bv8>, slot: nat, refs: seq<SampleRef>, parallel: nat, timeSteps: nat, elementSize: nat, sampleSize: nat, row: nat, other: nat)
    requires slot < parallel && |refs| <= timeSteps && |bytes| == parallel * timeSteps * sampleSize
    requires RefsCopyable(refs, elementSize, sampleSize)
    requires row < timeSteps && other < parallel && other != slot
    ensures SampleOffset(row, other, parallel, sampleSize) + sampleSize <= |bytes|
    ensures var at := SampleOffset(row, other, parallel, sampleSize);
            PackedSlot(bytes, slot, refs, parallel, timeSteps, elementSize, sampleSize)[at..at + sampleSize]
            == bytes[at..at + sampleSize]
  {
    SampleInBuffer(row, other, parallel, timeSteps, sampleSize);
    var at := SampleOffset(row, other, parallel, sampleSize);
    var after := PackedSlot(bytes, slot, refs, parallel, timeSteps, elementSize, sampleSize);
    forall p | at <= p < at + sampleSize ensures after[p] == bytes[p] {
      PackedSlotKeepsByte(bytes, slot, refs, parallel, timeSteps, elementSize, sampleSize, row, other, p);
    }
  }

  /** Packing time step `row` writes the copy of the window's sample `row` at its offset
      over the bytes packed so far. */
  lemma PackedSlotNext(bytes: seq<bv8>, slot: nat, window: seq<SampleRef>, parallel: nat, timeSteps: nat, elementSize: nat, sampleSize: nat, row: nat)
    requires slot < parallel && row < |window| <= timeSteps && |bytes| == parallel * timeSteps * sampleSize
    requires RefsCopyable(window, elementSize, sampleSize)
    ensures RefsCopyable(window[..row], elementSize, sampleSize) && RefsCopyable(window[..row + 1], elementSize, sampleSize)
    ensures SampleOffset(row, slot, parallel, sampleSize) + sampleSize <= |bytes|
    ensures CopyableSample(window[row].sequence, window[row].sample, elementSize, sampleSize)
    ensures var at := SampleOffset(row, slot, parallel, sampleSize);
            var current := PackedSlot(bytes, slot, window[..row], parallel, timeSteps, elementSize, sampleSize);
            PackedSlot(bytes, slot, window[..row + 1], parallel, timeSteps, elementSize, sampleSize)
            == WriteAt(current, at, CopySample(current[at..at + sampleSize], window[row].sequence, window[row].sample, elementSize))
  {
    PackedSlotExtend(bytes, slot, window, parallel, timeSteps, elementSize, sampleSize, row);
    var current := PackedSlot(bytes, slot, window[..row], parallel, timeSteps, elementSize, sampleSize);
    CopyToRowAt(current, row, slot, parallel, timeSteps, elementSize, sampleSize, window[row]);
  }

  /** The buffer after copying the window's sample `row` over the first `row` packed
      time steps holds the first row + 1 time steps packed. */
  lemma PackedSlotNextFrom(bytes: seq<bv8>, current: seq<bv8>, after: seq<bv8>, slot: nat, window: seq<SampleRef>, parallel: nat, timeSteps: nat, elementSize: nat, sampleSize: nat, row: nat, offset: nat)
    requires slot < parallel && row < |window| <= timeSteps && |bytes| == parallel * timeSteps * sampleSize
    requires RefsCopyable(window, elementSize, sampleSize)
    requires RefsCopyable(window[..row], elementSize, sampleSize)
    requires current == PackedSlot(bytes, slot, window[..row], parallel, timeSteps, elementSize, sampleSize)
    requires offset == SampleOffset(row, slot, parallel, sampleSize) && offset + sampleSize <= |current|
    requires CopyableSample(window[row].sequence, window[row].sample, elementSize, sampleSize)
    requires after == WriteAt(current, offset, CopySample(current[offset..offset + sampleSize], window[row].sequence, window[row].sample, elementSize))
    ensures RefsCopyable(window[..row + 1], elementSize, sampleSize)
    ensures after == PackedSlot(bytes, slot, window[..row + 1], parallel, timeSteps, elementSize, sampleSize)
  {
    PackedSlotNext(bytes, slot, window, parallel, timeSteps, elementSize, sampleSize, row);
  }

  /** Packing one more time step: the slot's next sample copied over the packed prefix. */
  lemma PackedSlotExtend(bytes: seq<bv8>, slot: nat, refs: seq<SampleRef>, parallel: nat, timeSteps: nat, elementSize: nat, sampleSize: nat, i: nat)
    requires slot < parallel && |refs| <= timeSteps && |bytes| == parallel * timeSteps * sampleSize
    requires RefsCopyable(refs, elementSize, sampleSize) && i < |refs|
    ensures RefsCopyable(refs[..i], elementSize, sampleSize) && RefsCopyable(refs[..i + 1], elementSize, sampleSize)
    ensures PackedSlot(bytes, slot, refs[..i + 1], parallel, timeSteps, elementSize, sampleSize)
            == CopyToRow(PackedSlot(bytes, slot, refs[..i], parallel, timeSteps, elementSize, sampleSize),
                         i, slot, parallel, timeSteps, elementSize, sampleSize, refs[i])
  {
    assert refs[..i + 1][..i] == refs[..i];
  }
}
