/** The two sample copiers of the packer (PackDenseSample, PackSparseSample) and the place
    of a sample in a stream buffer: row-major over time steps, slot-minor. */
module SampleCopy {
  import opened BpttTypes

  /** `dest` with `bytes` copied over it from byte `at` (a memcpy). */
  function WriteAt(dest: seq<bv8>, at: nat, bytes: seq<bv8>): (r: seq<bv8>)
    requires at + |bytes| <= |dest|
    ensures |r| == |dest|
    ensures forall p {:trigger r[p]} :: 0 <= p < |dest| ==> r[p] == if at <= p < at + |bytes| then bytes[p - at] else dest[p]
    decreases |bytes|
  {
    if bytes == [] then dest else WriteAt(dest[at := bytes[0]], at + 1, bytes[1..])
  }

  lemma WriteAtInside(dest: seq<bv8>, at: nat, bytes: seq<bv8>, b: nat)
    requires at + |bytes| <= |dest| && b < |bytes|
    ensures WriteAt(dest, at, bytes)[at + b] == bytes[b]
  {
  }

  lemma WriteAtOutside(dest: seq<bv8>, at: nat, bytes: seq<bv8>, p: nat)
    requires at + |bytes| <= |dest| && p < |dest| && (p < at || at + |bytes| <= p)
    ensures WriteAt(dest, at, bytes)[p] == dest[p]
  {
  }

  /** Writing a whole buffer's worth of bytes yields those bytes. */
  lemma WriteAtWhole(dest: seq<bv8>, bytes: seq<bv8>)
    requires |bytes| == |dest|
    ensures WriteAt(dest, 0, bytes) == bytes
  {
    var r := WriteAt(dest, 0, bytes);
    forall p | 0 <= p < |r| ensures r[p] == bytes[p] {
    }
  }

  /** Writing a range's own bytes back changes nothing. */
  lemma WriteAtSame(dest: seq<bv8>, at: nat, length: nat)
    requires at + length <= |dest|
    ensures WriteAt(dest, at, dest[at..at + length]) == dest
  {
    var r := WriteAt(dest, at, dest[at..at + length]);
    assert |r| == |dest|;
    forall p | 0 <= p < |r| ensures r[p] == dest[p] {
    }
  }

  /** Writing into a window that is itself written at `offset` is writing at the sum. */
  lemma WriteAtNested(dest: seq<bv8>, offset: nat, window: seq<bv8>, at: nat, bytes: seq<bv8>)
    requires offset + |window| <= |dest| && at + |bytes| <= |window|
    ensures WriteAt(dest, offset, WriteAt(window, at, bytes))
         == WriteAt(WriteAt(dest, offset, window), offset + at, bytes)
  {
    var l := WriteAt(dest, offset, WriteAt(window, at, bytes));
    var r := WriteAt(WriteAt(dest, offset, window), offset + at, bytes);
    assert |l| == |r|;
    forall p | 0 <= p < |l| ensures l[p] == r[p] {
    }
  }

  /** Index in the sequence's value buffer of the first value of `sample`: the values of
      the earlier samples come first. */
  function ValueStart(indices: seq<seq<nat>>, sample: nat): nat
    requires sample <= |indices|
  {
    NonZeroCount(indices[..sample])
  }

  lemma NonZeroCountPrefix(indices: seq<seq<nat>>, k: nat)
    requires k <= |indices|
    ensures NonZeroCount(indices[..k]) <= NonZeroCount(indices)
    decreases |indices|
  {
    if k < |indices| {
      assert indices[..|indices| - 1][..k] == indices[..k];
      NonZeroCountPrefix(indices[..|indices| - 1], k);
    } else {
      assert indices[..k] == indices;
    }
  }

  lemma MulSucc(a: nat, c: nat)
    ensures (a + 1) * c == a * c + c
  {
  }

  /** Every listed element's bytes lie within the first `size` bytes. */
  predicate ElementsFit(indices: seq<nat>, elementSize: nat, size: nat) {
    forall i :: 0 <= i < |indices| ==> indices[i] * elementSize + elementSize <= size
  }

  /** The elementSize bytes of value number `v` in a value buffer. */
  function Element(data: seq<bv8>, v: nat, elementSize: nat): (r: seq<bv8>)
    requires (v + 1) * elementSize <= |data|
    ensures |r| == elementSize
  {
    MulSucc(v, elementSize);
    data[v * elementSize .. v * elementSize + elementSize]
  }

  /** The effect of the sparse copier on the sample's destination bytes: for each listed
      non-zero entry in order, its value (the elementSize bytes of value number first + j
      of the value buffer for entry j) is written at index * elementSize. */
  function SparseImage(window: seq<bv8>, indices: seq<nat>, data: seq<bv8>, first: nat, elementSize: nat): (r: seq<bv8>)
    requires ElementsFit(indices, elementSize, |window|)
    requires (first + |indices|) * elementSize <= |data|
    ensures |r| == |window|
    decreases |indices|
  {
    if indices == [] then window
    else
      var j := |indices| - 1;
      MulLeMonotone(first + j, first + |indices|, elementSize);
      WriteAt(SparseImage(window, indices[..j], data, first, elementSize), indices[j] * elementSize, Element(data, first + j, elementSize))
  }

  /** The sparse copier touches no destination byte outside the elements it lists. */
  lemma {:induction false} SparseImageUntouched(window: seq<bv8>, indices: seq<nat>, data: seq<bv8>, first: nat, elementSize: nat, p: nat)
    requires ElementsFit(indices, elementSize, |window|)
    requires (first + |indices|) * elementSize <= |data|
    requires p < |window|
    requires forall i :: 0 <= i < |indices| ==> !(indices[i] * elementSize <= p < indices[i] * elementSize + elementSize)
    ensures SparseImage(window, indices, data, first, elementSize)[p] == window[p]
    decreases |indices|
  {
    if indices != [] {
      var j := |indices| - 1;
      MulLeMonotone(first + j, first + |indices|, elementSize);
      SparseImageUntouched(window, indices[..j], data, first, elementSize, p);
    }
  }

  /** The last listed element is written last. */
  lemma SparseImageLast(window: seq<bv8>, indices: seq<nat>, data: seq<bv8>, first: nat, elementSize: nat)
    requires ElementsFit(indices, elementSize, |window|)
    requires (first + |indices|) * elementSize <= |data|
    requires indices != []
    ensures ElementsFit(indices[..|indices| - 1], elementSize, |window|)
    ensures (first + |indices| - 1) * elementSize <= (first + |indices|) * elementSize
    ensures indices[|indices| - 1] * elementSize + elementSize <= |window|
    ensures SparseImage(window, indices, data, first, elementSize)
            == WriteAt(SparseImage(window, indices[..|indices| - 1], data, first, elementSize),
                       indices[|indices| - 1] * elementSize, Element(data, first + |indices| - 1, elementSize))
  {
    MulLeMonotone(first + |indices| - 1, first + |indices|, elementSize);
  }

  /** The last listed element ends up holding its value. */
  lemma SparseImageLastWritten(window: seq<bv8>, indices: seq<nat>, data: seq<bv8>, first: nat, elementSize: nat, b: nat)
    requires ElementsFit(indices, elementSize, |window|)
    requires (first + |indices|) * elementSize <= |data|
    requires indices != [] && b < elementSize
    ensures SparseImage(window, indices, data, first, elementSize)[indices[|indices| - 1] * elementSize + b]
         == Element(data, first + |indices| - 1, elementSize)[b]
  {
    var last := |indices| - 1;
    MulLeMonotone(0, indices[last], elementSize);
    assert (first + last + 1) * elementSize <= |data| by { assert first + last + 1 == first + |indices|; }
    SparseImageLast(window, indices, data, first, elementSize);
    WriteAtInside(SparseImage(window, indices[..last], data, first, elementSize),
                  indices[last] * elementSize, Element(data, first + last, elementSize), b);
  }

  /** Writing the last listed element keeps every byte outside that element's range. */
  lemma SparseImageKeepsOutsideLast(window: seq<bv8>, indices: seq<nat>, data: seq<bv8>, first: nat, elementSize: nat, p: nat)
    requires ElementsFit(indices, elementSize, |window|)
    requires (first + |indices|) * elementSize <= |data|
    requires indices != [] && p < |window|
    requires p < indices[|indices| - 1] * elementSize || indices[|indices| - 1] * elementSize + elementSize <= p
    ensures ElementsFit(indices[..|indices| - 1], elementSize, |window|)
    ensures (first + |indices| - 1) * elementSize <= |data|
    ensures SparseImage(window, indices, data, first, elementSize)[p]
         == SparseImage(window, indices[..|indices| - 1], data, first, elementSize)[p]
  {
    var last := |indices| - 1;
    SparseImageLast(window, indices, data, first, elementSize);
    WriteAtOutside(SparseImage(window, indices[..last], data, first, elementSize),
                   indices[last] * elementSize, Element(data, first + last, elementSize), p);
  }

  /** Byte b of element j lies in the window and outside the last listed element when the
      two are listed under different indices. */
  lemma ElementByteOutside(indices: seq<nat>, elementSize: nat, size: nat, j: nat, b: nat)
    requires ElementsFit(indices, elementSize, size)
    requires j < |indices| - 1 && b < elementSize && indices[j] != indices[|indices| - 1]
    ensures 0 <= indices[j] * elementSize && indices[j] * elementSize + b < size
    ensures indices[j] * elementSize + b < indices[|indices| - 1] * elementSize
         || indices[|indices| - 1] * elementSize + elementSize <= indices[j] * elementSize + b
  {
    MulLeMonotone(0, indices[j], elementSize);
    ElementsDisjoint(indices[j], indices[|indices| - 1], elementSize);
  }

  /** The listed elements but the last fit as the whole list does. */
  lemma SparsePrefixFits(window: seq<bv8>, indices: seq<nat>, data: seq<bv8>, first: nat, elementSize: nat)
    requires ElementsFit(indices, elementSize, |window|)
    requires (first + |indices|) * elementSize <= |data|
    requires indices != []
    ensures ElementsFit(indices[..|indices| - 1], elementSize, |window|)
    ensures (first + |indices[..|indices| - 1]|) * elementSize <= |data|
  {
    MulLeMonotone(first + |indices| - 1, first + |indices|, elementSize);
  }

  /** Each listed element that is not listed again later ends up holding its value. */
  lemma {:induction false} SparseImageWritten(window: seq<bv8>, indices: seq<nat>, data: seq<bv8>, first: nat, elementSize: nat, j: nat, b: nat)
    requires ElementsFit(indices, elementSize, |window|)
    requires (first + |indices|) * elementSize <= |data|
    requires j < |indices| && b < elementSize
    requires forall j' :: j < j' < |indices| ==> indices[j'] != indices[j]
    ensures (first + j + 1) * elementSize <= |data|
    ensures SparseImage(window, indices, data, first, elementSize)[indices[j] * elementSize + b]
         == Element(data, first + j, elementSize)[b]
    decreases |indices|, 1
  {
    if j < |indices| - 1 {
      SparseImageWrittenEarlier(window, indices, data, first, elementSize, j, b);
    } else {
      MulLeMonotone(first + j + 1, first + |indices|, elementSize);
      SparseImageLastWritten(window, indices, data, first, elementSize, b);
    }
  }

  /** SparseImageWritten for an element listed before the last: the last write leaves it
      alone, and the rest of the list wrote it. */
  lemma {:induction false} SparseImageWrittenEarlier(window: seq<bv8>, indices: seq<nat>, data: seq<bv8>, first: nat, elementSize: nat, j: nat, b: nat)
    requires ElementsFit(indices, elementSize, |window|)
    requires (first + |indices|) * elementSize <= |data|
    requires j < |indices| - 1 && b < elementSize
    requires forall j' :: j < j' < |indices| ==> indices[j'] != indices[j]
    ensures (first + j + 1) * elementSize <= |data|
    ensures SparseImage(window, indices, data, first, elementSize)[indices[j] * elementSize + b]
         == Element(data, first + j, elementSize)[b]
    decreases |indices|, 0
  {
    var last := |indices| - 1;
    ElementByteOutside(indices, elementSize, |window|, j, b);
    SparseImageKeepsOutsideLast(window, indices, data, first, elementSize, indices[j] * elementSize + b);
    SparsePrefixFits(window, indices, data, first, elementSize);
    SparseImageWritten(window, indices[..last], data, first, elementSize, j, b);
  }

  /** Distinct element indices address disjoint byte ranges. */
  lemma ElementsDisjoint(x: nat, y: nat, elementSize: nat)
    requires x != y
    ensures x * elementSize + elementSize <= y * elementSize || y * elementSize + elementSize <= x * elementSize
  {
    if x < y {
      MulLeMonotone(x + 1, y, elementSize);
    } else {
      MulLeMonotone(y + 1, x, elementSize);
    }
  }

  /** What the copier needs of a sequence to copy one sample into sampleSize bytes. */
  predicate CopyableSample(sequence: SequenceData, sample: nat, elementSize: nat, sampleSize: nat) {
    match sequence
    case DenseSequence(_, data) => sample * sampleSize + sampleSize <= |data|
    case SparseSequence(_, indices, data) =>
      && sample < |indices|
      && ElementsFit(indices[sample], elementSize, sampleSize)
      && (ValueStart(indices, sample) + |indices[sample]|) * elementSize <= |data|
  }

  /** The destination bytes of one sample after copying it over `window`: a dense sample
      replaces them, a sparse sample overwrites only its listed elements. */
  function CopySample(window: seq<bv8>, sequence: SequenceData, sample: nat, elementSize: nat): (r: seq<bv8>)
    requires CopyableSample(sequence, sample, elementSize, |window|)
    ensures |r| == |window|
  {
    match sequence
    case DenseSequence(_, data) => data[sample * |window| .. sample * |window| + |window|]
    case SparseSequence(_, indices, data) =>
      SparseImage(window, indices[sample], data, ValueStart(indices, sample), elementSize)
  }

  /** Every sample of a sequence that fits its stream can be copied into a sample's bytes. */
  lemma FitsCopyable(sequence: SequenceData, stream: StreamDescription, sample: nat)
    requires IsFloatingPoint(stream.elementType) && Fits(sequence, stream)
    requires sample < sequence.numberOfSamples
    ensures CopyableSample(sequence, sample, ElementSize(stream.elementType), GetSampleSize(stream))
  {
    var es := ElementSize(stream.elementType);
    var ss := GetSampleSize(stream);
    match sequence
    case DenseSequence(n, data) =>
      MulLeMonotone(sample + 1, n, ss);
    case SparseSequence(n, indices, data) =>
      forall i | 0 <= i < |indices[sample]| ensures indices[sample][i] * es + es <= ss {
        assert indices[sample][i] in indices[sample];
        ElementWithinSample(stream, indices[sample][i]);
      }
      assert indices[..sample + 1][..sample] == indices[..sample];
      assert indices[..sample + 1][sample] == indices[sample];
      NonZeroCountPrefix(indices, sample + 1);
      MulLeMonotone(ValueStart(indices, sample) + |indices[sample]|, NonZeroCount(indices), es);
  }

  /** Byte offset of time step `row` of slot `slot` in a stream buffer: samples are laid
      out time step by time step, the slots of one time step side by side. */
  function SampleOffset(row: nat, slot: nat, parallel: nat, sampleSize: nat): nat {
    (row * parallel + slot) * sampleSize
  }

  /** The offset is the code's stride * row + slot * sampleSize, stride = parallel * sampleSize. */
  lemma SampleOffsetIsStrided(row: nat, slot: nat, parallel: nat, sampleSize: nat)
    ensures SampleOffset(row, slot, parallel, sampleSize) == (parallel * sampleSize) * row + slot * sampleSize
  {
    calc {
      (row * parallel + slot) * sampleSize;
    ==  row * parallel * sampleSize + slot * sampleSize;
    ==  (parallel * sampleSize) * row + slot * sampleSize;
    }
  }

  /** Every sample position of a T-step, P-slot window lies inside its P * T * sampleSize buffer. */
  lemma SampleInBuffer(row: nat, slot: nat, parallel: nat, steps: nat, sampleSize: nat)
    requires row < steps && slot < parallel
    ensures SampleOffset(row, slot, parallel, sampleSize) + sampleSize <= parallel * steps * sampleSize
  {
    var cell := row * parallel + slot;
    assert cell + 1 <= steps * parallel by {
      MulLeMonotone(row + 1, steps, parallel);
    }
    MulLeMonotone(cell + 1, steps * parallel, sampleSize);
    assert steps * parallel == parallel * steps;
  }

  /** Distinct sample positions of a window occupy disjoint bytes. */
  lemma SamplesDisjoint(row1: nat, slot1: nat, row2: nat, slot2: nat, parallel: nat, sampleSize: nat)
    requires slot1 < parallel && slot2 < parallel && (row1 != row2 || slot1 != slot2)
    ensures SampleOffset(row1, slot1, parallel, sampleSize) + sampleSize <= SampleOffset(row2, slot2, parallel, sampleSize)
         || SampleOffset(row2, slot2, parallel, sampleSize) + sampleSize <= SampleOffset(row1, slot1, parallel, sampleSize)
  {
    CellsDistinct(row1, slot1, row2, slot2, parallel);
    ElementsDisjoint(row1 * parallel + slot1, row2 * parallel + slot2, sampleSize);
  }

  lemma CellsDistinct(row1: nat, slot1: nat, row2: nat, slot2: nat, parallel: nat)
    requires slot1 < parallel && slot2 < parallel && (row1 != row2 || slot1 != slot2)
    ensures row1 * parallel + slot1 != row2 * parallel + slot2
  {
    if row1 < row2 {
      MulSucc(row1, parallel);
      MulLeMonotone(row1 + 1, row2, parallel);
    } else if row2 < row1 {
      MulSucc(row2, parallel);
      MulLeMonotone(row2 + 1, row1, parallel);
    }
  }

  /** PackDenseSample: copies sampleSize bytes of the sequence, starting at byte
      sample * sampleSize, to the destination. */
  method PackDenseSample(destination: array<bv8>, offset: nat, sequence: SequenceData, sample: nat, elementSize: nat, sampleSize: nat)
    requires sequence.DenseSequence? && CopyableSample(sequence, sample, elementSize, sampleSize)
    requires offset + sampleSize <= destination.Length
    modifies destination
    ensures destination[..] == WriteAt(old(destination[..]), offset,
                                       CopySample(old(destination[..])[offset..offset + sampleSize], sequence, sample, elementSize))
  {
    forall p | offset <= p < offset + sampleSize {
      destination[p] := sequence.data[sample * sampleSize + (p - offset)];
    }
  }

  /** PackSparseSample: for each non-zero entry of the sample, copies elementSize bytes of
      its value to index * elementSize bytes past the destination. The destination is
      expected to be zeroed by the caller; other bytes are left as they are. */
  method PackSparseSample(destination: array<bv8>, offset: nat, sequence: SequenceData, sample: nat, elementSize: nat, sampleSize: nat)
    requires sequence.SparseSequence? && CopyableSample(sequence, sample, elementSize, sampleSize)
    requires offset + sampleSize <= destination.Length
    modifies destination
    ensures destination[..] == WriteAt(old(destination[..]), offset,
                                       CopySample(old(destination[..])[offset..offset + sampleSize], sequence, sample, elementSize))
  {
    ghost var window := destination[..][offset..offset + sampleSize];
    var indices := sequence.indices[sample];
    var first := ValueStart(sequence.indices, sample);
    var nonZeroCount := |indices|;
    WriteAtSame(old(destination[..]), offset, sampleSize);
    assert indices[..0] == [];
    for nonZeroIndex := 0 to nonZeroCount
      invariant destination[..] == WriteAt(old(destination[..]), offset,
                                           SparseImagePrefix(window, indices, nonZeroIndex, sequence.data, first, elementSize))
    {
      CopyEntry(destination, offset, window, indices, nonZeroIndex, sequence.data, first, elementSize, old(destination[..]));
    }
    SparseImagePrefixAll(window, indices, sequence.data, first, elementSize);
  }

  /** The sparse copier's image after its first k non-zero entries. */
  function SparseImagePrefix(window: seq<bv8>, indices: seq<nat>, k: nat, data: seq<bv8>, first: nat, elementSize: nat): (r: seq<bv8>)
    requires ElementsFit(indices, elementSize, |window|)
    requires (first + |indices|) * elementSize <= |data|
    requires k <= |indices|
    ensures |r| == |window|
  {
    MulLeMonotone(first + k, first + |indices|, elementSize);
    SparseImage(window, indices[..k], data, first, elementSize)
  }

  /** One more entry of the sparse copier is one more WriteAt. */
  lemma SparseImagePrefixStep(window: seq<bv8>, indices: seq<nat>, k: nat, data: seq<bv8>, first: nat, elementSize: nat)
    requires ElementsFit(indices, elementSize, |window|)
    requires (first + |indices|) * elementSize <= |data|
    requires k < |indices|
    ensures (first + k + 1) * elementSize <= |data|
    ensures indices[k] * elementSize + elementSize <= |window|
    ensures SparseImagePrefix(window, indices, k + 1, data, first, elementSize)
         == WriteAt(SparseImagePrefix(window, indices, k, data, first, elementSize), indices[k] * elementSize,
                    Element(data, first + k, elementSize))
  {
    MulLeMonotone(first + k + 1, first + |indices|, elementSize);
    assert indices[..k + 1][..k] == indices[..k];
  }

  /** The body of the sparse copier's loop: entry k's value copied to its element. */
  method CopyEntry(destination: array<bv8>, offset: nat, ghost window: seq<bv8>, indices: seq<nat>, k: nat, data: seq<bv8>, first: nat,
                   elementSize: nat, ghost initial: seq<bv8>)
    requires ElementsFit(indices, elementSize, |window|)
    requires (first + |indices|) * elementSize <= |data|
    requires k < |indices| && offset + |window| <= |initial| == destination.Length
    requires destination[..] == WriteAt(initial, offset, SparseImagePrefix(window, indices, k, data, first, elementSize))
    modifies destination
    ensures destination[..] == WriteAt(initial, offset, SparseImagePrefix(window, indices, k + 1, data, first, elementSize))
  {
    SparseCopyStep(initial, offset, window, indices, k, data, first, elementSize);
    var at := indices[k] * elementSize;
    CopyElement(destination, offset + at, data, first + k, elementSize);
  }

  /** One more entry of the sparse copier, seen in the whole destination. */
  lemma SparseCopyStep(dest: seq<bv8>, offset: nat, window: seq<bv8>, indices: seq<nat>, k: nat, data: seq<bv8>, first: nat, elementSize: nat)
    requires ElementsFit(indices, elementSize, |window|)
    requires (first + |indices|) * elementSize <= |data|
    requires k < |indices| && offset + |window| <= |dest|
    ensures (first + k + 1) * elementSize <= |data|
    ensures 0 <= indices[k] * elementSize && offset + indices[k] * elementSize + elementSize <= |dest|
    ensures WriteAt(WriteAt(dest, offset, SparseImagePrefix(window, indices, k, data, first, elementSize)),
                    offset + indices[k] * elementSize, Element(data, first + k, elementSize))
            == WriteAt(dest, offset, SparseImagePrefix(window, indices, k + 1, data, first, elementSize))
  {
    SparseImagePrefixStep(window, indices, k, data, first, elementSize);
    MulLeMonotone(0, indices[k], elementSize);
    WriteAtNested(dest, offset, SparseImagePrefix(window, indices, k, data, first, elementSize),
                  indices[k] * elementSize, Element(data, first + k, elementSize));
  }

  lemma SparseImagePrefixAll(window: seq<bv8>, indices: seq<nat>, data: seq<bv8>, first: nat, elementSize: nat)
    requires ElementsFit(indices, elementSize, |window|)
    requires (first + |indices|) * elementSize <= |data|
    ensures SparseImagePrefix(window, indices, |indices|, data, first, elementSize)
         == SparseImage(window, indices, data, first, elementSize)
  {
    assert indices[..|indices|] == indices;
  }

  /** One memcpy of the sparse copier: value number v of the value buffer to byte `at`. */
  method CopyElement(destination: array<bv8>, at: nat, data: seq<bv8>, v: nat, elementSize: nat)
    requires (v + 1) * elementSize <= |data| && at + elementSize <= destination.Length
    modifies destination
    ensures destination[..] == WriteAt(old(destination[..]), at, Element(data, v, elementSize))
  {
    MulSucc(v, elementSize);
    forall b | 0 <= b < elementSize {
      destination[at + b] := data[v * elementSize + b];
    }
  }

  /** The destination offset as written at BpttPacker.cpp:145-146 and 178: the local
      sampleSize is 0, so the stride is 0 as well. */
  function AsWrittenSampleOffset(row: nat, slot: nat, parallel: nat): nat {
    var sampleSize := 0;
    var stride := parallel * sampleSize;
    stride * row + slot * sampleSize
  }

  /** As written, every sample of every slot is copied to the first byte of the buffer. */
  lemma AsWrittenOffsetsCollide(row: nat, slot: nat, parallel: nat)
    ensures AsWrittenSampleOffset(row, slot, parallel) == AsWrittenSampleOffset(0, 0, parallel) == 0
  {
  }

  /** The sparse copy as written at BpttPacker.cpp:228-231: values are read from the start
      of the value buffer whatever the sample. */
  function AsWrittenSparseImage(window: seq<bv8>, sequence: SequenceData, sample: nat, elementSize: nat): seq<bv8>
    requires sequence.SparseSequence? && sample < |sequence.indices|
    requires ElementsFit(sequence.indices[sample], elementSize, |window|)
    requires |sequence.indices[sample]| * elementSize <= |sequence.data|
  {
    SparseImage(window, sequence.indices[sample], sequence.data, 0, elementSize)
  }

  /** Two one-element samples of a float stream, values 1 and 2, both at element 0: as
      written, the second sample is copied with the first sample's value. */
  lemma AsWrittenSparseCopiesWrongValue()
    ensures var s := SparseSequence(2, [[0], [0]], [1, 0, 0, 0, 2, 0, 0, 0]);
            && AsWrittenSparseImage([0, 0, 0, 0], s, 1, 4) == [1, 0, 0, 0]
            && CopySample([0, 0, 0, 0], s, 1, 4) == [2, 0, 0, 0]
  {
    var s := SparseSequence(2, [[0], [0]], [1, 0, 0, 0, 2, 0, 0, 0]);
    assert [[0], [0]][..1] == [[0]];
    assert [0][..0] == [];
    assert ValueStart(s.indices, 1) == 1;
    assert s.data[0..4] == [1, 0, 0, 0] && s.data[4..8] == [2, 0, 0, 0];
    WriteAtWhole([0, 0, 0, 0], [1, 0, 0, 0]);
    WriteAtWhole([0, 0, 0, 0], [2, 0, 0, 0]);
  }
}
