/** Stream descriptions, sequence data and minibatch layout records shared by the
    truncated-BPTT packer (Source/Readers/ReaderLib/BpttPacker.cpp). */
module BpttTypes {

  /** Element types a stream may declare; only the two floating-point ones have a size. */
  datatype ElementType = Float32 | Float64 | Unsupported

  /** Physical storage of a stream: contiguous samples, or per-sample index lists plus values. */
  datatype StorageType = Dense | SparseCsc

  datatype StreamDescription = StreamDescription(
    name: string,
    id: nat,
    storageType: StorageType,
    elementType: ElementType,
    numElements: nat)   // elements per sample (the sample layout's element count)

  predicate IsFloatingPoint(t: ElementType) {
    t == Float32 || t == Float64
  }

  /** Size in bytes of one element (GetSizeByType, for the types it accepts). */
  function ElementSize(t: ElementType): nat
    requires IsFloatingPoint(t)
  {
    if t == Float32 then 4 else 8
  }

  /** GetSampleSize: bytes taken by one sample of the stream. */
  function GetSampleSize(stream: StreamDescription): nat
    requires IsFloatingPoint(stream.elementType)
  {
    stream.numElements * ElementSize(stream.elementType)
  }

  /** Every element of a sample lies inside the sample's bytes, so a sparse index below
      numElements addresses elementSize bytes that end at or before GetSampleSize. */
  lemma ElementWithinSample(stream: StreamDescription, index: nat)
    requires IsFloatingPoint(stream.elementType) && index < stream.numElements
    ensures index * ElementSize(stream.elementType) + ElementSize(stream.elementType) <= GetSampleSize(stream)
  {
    var es := ElementSize(stream.elementType);
    calc {
      index * es + es;
    ==  (index + 1) * es;
    <=  { MulLeMonotone(index + 1, stream.numElements, es); }
      stream.numElements * es;
    }
  }

  lemma MulLeMonotone(a: nat, b: nat, c: nat)
    requires a <= b
    ensures a * c <= b * c
  {
  }

  /** What the packer's constructor asserts of its input and output stream descriptions. */
  predicate ConstructionAllowed(inputs: seq<StreamDescription>, outputs: seq<StreamDescription>, minibatchSize: nat) {
    && |inputs| == |outputs|
    && (forall i :: 0 <= i < |outputs| ==> outputs[i].storageType != SparseCsc)
    && minibatchSize > 0
    && forall i :: 0 <= i < |outputs| ==> StreamsAgree(inputs[i], outputs[i])
  }

  /** One stream's input and output description agree in everything except storage. */
  predicate StreamsAgree(input: StreamDescription, output: StreamDescription) {
    && IsFloatingPoint(output.elementType)
    && output.name == input.name
    && output.id == input.id
    && IsFloatingPoint(input.elementType)
    && GetSampleSize(input) == GetSampleSize(output)
  }

  /** One sequence handed out by the transformer: an immutable value. Dense data holds
      numberOfSamples * sampleSize bytes; sparse data holds one index list per sample and
      the values of all samples one after the other. */
  datatype SequenceData =
    | DenseSequence(numberOfSamples: nat, data: seq<bv8>)
    | SparseSequence(numberOfSamples: nat, indices: seq<seq<nat>>, data: seq<bv8>)

  /** Number of non-zero entries listed by the given per-sample index lists. */
  function NonZeroCount(indices: seq<seq<nat>>): nat {
    if indices == [] then 0 else NonZeroCount(indices[..|indices| - 1]) + |indices[|indices| - 1]|
  }

  /** A sequence is of the kind and size the (input) stream describes, and has a sample. */
  predicate Fits(sequence: SequenceData, stream: StreamDescription)
    requires IsFloatingPoint(stream.elementType)
  {
    && sequence.numberOfSamples >= 1
    && match sequence
       case DenseSequence(n, data) =>
         stream.storageType == Dense && |data| == n * GetSampleSize(stream)
       case SparseSequence(n, indices, data) =>
         && stream.storageType == SparseCsc
         && |indices| == n
         && (forall j :: 0 <= j < n ==> forall x :: x in indices[j] ==> x < stream.numElements)
         && |data| == NonZeroCount(indices) * ElementSize(stream.elementType)
  }

  /** One call to the transformer's GetNextSequences(1): one sequence per stream, all of
      the same sample count, each fitting its stream. */
  predicate BatchFits(batch: seq<SequenceData>, streams: seq<StreamDescription>) {
    && |batch| == |streams|
    && |batch| > 0
    && (forall t :: 0 <= t < |batch| ==> IsFloatingPoint(streams[t].elementType) && Fits(batch[t], streams[t]))
    && forall t :: 0 <= t < |batch| ==> batch[t].numberOfSamples == batch[0].numberOfSamples
  }

  /** A layout record. A sequence span places a sequence of `length` samples so that it
      begins at window position `start` (negative when it began in an earlier minibatch);
      a gap span marks `length` unused positions from `start`. */
  datatype Span =
    | SequenceSpan(start: int, length: nat, continuesPrevious: bool)
    | GapSpan(start: int, length: nat)

  datatype LayoutEntry = LayoutEntry(slot: nat, span: Span)

  /** The minibatch layout of one stream: P parallel slots of T time steps, and the spans
      recorded so far, in the order they were added. */
  datatype MBLayout = MBLayout(numParallelSequences: nat, numTimeSteps: nat, entries: seq<LayoutEntry>)

  function Min(a: int, b: int): int {
    if a < b then a else b
  }

  function Max(a: int, b: int): int {
    if a < b then b else a
  }

  /** Number of positions of [0, timeSteps) the span covers with sample data. */
  function CoveredSamples(span: Span, timeSteps: nat): nat {
    match span
    case GapSpan(_, _) => 0
    case SequenceSpan(start, length, _) =>
      var lo := Max(start, 0);
      var hi := Min(start + length, timeSteps);
      if lo < hi then hi - lo else 0
  }

  function SumCovered(entries: seq<LayoutEntry>, timeSteps: nat): nat {
    if entries == [] then 0
    else SumCovered(entries[..|entries| - 1], timeSteps) + CoveredSamples(entries[|entries| - 1].span, timeSteps)
  }

  /** GetActualNumSamples: sample positions of the layout that hold data (gaps excluded). */
  function ActualNumSamples(layout: MBLayout): nat {
    SumCovered(layout.entries, layout.numTimeSteps)
  }

  lemma SumCoveredAppend(a: seq<LayoutEntry>, b: seq<LayoutEntry>, timeSteps: nat)
    ensures SumCovered(a + b, timeSteps) == SumCovered(a, timeSteps) + SumCovered(b, timeSteps)
    decreases |b|
  {
    if b == [] {
      assert a + b == a;
    } else {
      var b' := b[..|b| - 1];
      assert (a + b)[..|a + b| - 1] == a + b';
      SumCoveredAppend(a, b', timeSteps);
    }
  }
}
