/** BpttPacker (Source/Readers/ReaderLib/BpttPacker.cpp): a truncated-BPTT packer that
    keeps P = minibatchSize / T parallel slots per stream and, per minibatch, packs up to
    T consecutive samples of every slot into a stream buffer of P * T samples, time step
    by time step, together with the layout records that say where each sequence lies. */
module BpttPacking {
  import opened BpttTypes
  import opened SampleCopy
  import opened LaneQueue
  import opened SlotImage
  import opened SequenceBuffers
  import opened PackedWindow

  /** The transformer upstream: every GetNextSequences(1) hands out the next batch, one
      sequence per stream, until the epoch ends. */
  class Transformer {
    const streams: seq<StreamDescription>
    var remaining: seq<seq<SequenceData>>

    ghost predicate Valid()
      reads this
    {
      BatchesFit(remaining, streams)
    }

    constructor (streams: seq<StreamDescription>, batches: seq<seq<SequenceData>>)
      requires BatchesFit(batches, streams)
      ensures Valid() && this.streams == streams && remaining == batches
    {
      this.streams := streams;
      remaining := batches;
    }

    /** GetNextSequences(1): the next batch, or the end of the epoch when there is none. */
    method GetNextSequences() returns (endOfEpoch: bool, data: seq<SequenceData>)
      requires Valid()
      modifies this
      ensures Valid()
      ensures endOfEpoch <==> old(remaining) == []
      ensures endOfEpoch ==> data == [] && remaining == []
      ensures !endOfEpoch ==> data == old(remaining)[0] && remaining == old(remaining)[1..]
    {
      if remaining == [] {
        return true, [];
      }
      data := remaining[0];
      remaining := remaining[1..];
      endOfEpoch := false;
    }
  }

  /** MBLayout: where the sequences of a minibatch of P parallel slots and T time steps
      lie, as the records added so far. The packer keeps one per stream and hands it out
      with the stream's minibatch. */
  class Layout {
    var numParallelSequences: nat
    var numTimeSteps: nat
    var entries: seq<LayoutEntry>

    ghost function Value(): MBLayout
      reads this
    {
      MBLayout(numParallelSequences, numTimeSteps, entries)
    }

    constructor ()
      ensures Value() == MBLayout(0, 0, [])
    {
      numParallelSequences, numTimeSteps, entries := 0, 0, [];
    }

    /** Init: an empty layout of P slots and T time steps. */
    method Init(parallel: nat, timeSteps: nat)
      modifies this
      ensures Value() == MBLayout(parallel, timeSteps, [])
    {
      numParallelSequences, numTimeSteps, entries := parallel, timeSteps, [];
    }

    /** AddSequence: one more record. */
    method AddSequence(entry: LayoutEntry)
      modifies this
      ensures Value() == Appended(old(Value()), [entry])
    {
      entries := entries + [entry];
    }

    /** GetActualNumSamples: the positions of the layout that hold samples. */
    function GetActualNumSamples(): nat
      reads this
    {
      SumCovered(entries, numTimeSteps)
    }
  }

  /** A layout with records appended. */
  function Appended(layout: MBLayout, entries: seq<LayoutEntry>): MBLayout {
    layout.(entries := layout.entries + entries)
  }

  /** The minibatch of one stream: the stream buffer, the bytes of it that hold samples,
      and the layout. */
  datatype StreamMinibatch = StreamMinibatch(data: array<bv8>, dataSize: nat, layout: Layout)

  datatype Minibatch = Minibatch(endOfEpoch: bool, data: seq<StreamMinibatch>)

  /** InitializePreparedSequences over valid buffers: the top-up, with what it keeps. */
  function ToppedUp(buffers: seq<SequenceBuffer>, parallel: nat, streams: seq<StreamDescription>, remaining: seq<seq<SequenceData>>, timeSteps: nat): (f: Fill)
    requires AllValid(buffers, parallel, streams) && |buffers| > 0 && BatchesFit(remaining, streams)
    ensures f == TopUp(buffers, parallel, remaining, timeSteps, parallel)
    ensures AllValid(f.buffers, parallel, streams) && BatchesFit(f.remaining, streams)
    ensures InStep(buffers, parallel) ==> InStep(f.buffers, parallel)
  {
    TopUpValid(buffers, parallel, streams, remaining, timeSteps, parallel);
    TopUp(buffers, parallel, remaining, timeSteps, parallel)
  }

  /** The buffers and transformer PackSequence(s, k) packs from: refilled through
      GetSequencesToSlot(k) when stream s holds fewer than T samples in slot k. */
  function Prepared(buffers: seq<SequenceBuffer>, parallel: nat, streams: seq<StreamDescription>, s: nat, k: nat, remaining: seq<seq<SequenceData>>, timeSteps: nat): (f: Fill)
    requires AllValid(buffers, parallel, streams) && s < |buffers| && k < parallel && BatchesFit(remaining, streams)
    ensures AllValid(f.buffers, parallel, streams) && BatchesFit(f.remaining, streams)
  {
    if buffers[s].preparedSequenceLength[k] < timeSteps then
      RefillValid(buffers, parallel, streams, k, remaining, timeSteps);
      Refill(buffers, parallel, k, remaining, timeSteps)
    else
      Fill(buffers, remaining)
  }

  /** What packing slot k of a prepared buffer `b` of a stream leaves: the buffer with the
      slot's window consumed, the layout records the window adds, and the stream buffer's
      bytes with the window copied in, one sample per time step. */
  datatype Packing = Packing(buffer: SequenceBuffer, entries: seq<LayoutEntry>, bytes: seq<bv8>)

  function WindowPacked(b: SequenceBuffer, parallel: nat, stream: StreamDescription, k: nat, timeSteps: nat, bytes: seq<bv8>): (r: Packing)
    requires BufferValid(b, parallel, stream) && k < parallel
    requires |bytes| == parallel * timeSteps * GetSampleSize(stream)
    ensures BufferValid(r.buffer, parallel, stream) && |r.bytes| == |bytes|
  {
    assert SlotValid(b, k, stream);
    var elementSize := ElementSize(stream.elementType);
    var sampleSize := GetSampleSize(stream);
    ValidCopyable(b, parallel, stream);
    SlotWindowCopyable(b, parallel, k, timeSteps, elementSize, sampleSize);
    ConsumeSlotValid(b, parallel, stream, k, timeSteps);
    Packing(ConsumeSlot(b, k, timeSteps), SlotLayout(b, parallel, k, timeSteps),
            PackedSlot(bytes, k, SlotWindow(b, parallel, k, timeSteps), parallel, timeSteps, elementSize, sampleSize))
  }

  /** A valid buffer of one stream replaced by another valid one keeps every stream valid. */
  lemma PackingValid(buffers: seq<SequenceBuffer>, parallel: nat, streams: seq<StreamDescription>, s: nat, b: SequenceBuffer)
    requires AllValid(buffers, parallel, streams) && s < |buffers| && BufferValid(b, parallel, streams[s])
    ensures AllValid(buffers[s := b], parallel, streams)
  {
    var r := buffers[s := b];
    forall t | 0 <= t < |r| ensures BufferValid(r[t], parallel, streams[t]) {
    }
  }

  /** SlotsPacked over a valid buffer of a stream: `after` is `before` with the windows
      of the first `slots` slots of `buffer` copied in. */
  ghost predicate WindowsPacked(before: seq<bv8>, after: seq<bv8>, buffer: SequenceBuffer, stream: StreamDescription, parallel: nat, slots: nat, timeSteps: nat)
    requires BufferValid(buffer, parallel, stream) && IsFloatingPoint(stream.elementType) && slots <= parallel
    requires |before| == parallel * timeSteps * GetSampleSize(stream)
  {
    ValidCopyable(buffer, parallel, stream);
    SlotsPacked(before, after, buffer, parallel, slots, timeSteps, ElementSize(stream.elementType), GetSampleSize(stream))
  }

  /** One stream packed by ReadMinibatch from its topped-up buffer `topped`: every slot's
      window is consumed, the bytes hold every window (SlotsPacked), the layout is P x T
      and holds every slot's records in slot order, and dataSize covers the packed samples. */
  ghost predicate StreamPacked(topped: SequenceBuffer, after: SequenceBuffer, before: seq<bv8>, bytes: seq<bv8>, layout: MBLayout, dataSize: nat,
                               parallel: nat, timeSteps: nat, stream: StreamDescription)
    requires BufferValid(topped, parallel, stream) && IsFloatingPoint(stream.elementType)
    requires |before| == parallel * timeSteps * GetSampleSize(stream)
  {
    ValidCopyable(topped, parallel, stream);
    && after == PackedBuffer(topped, parallel, parallel, timeSteps)
    && WindowsPacked(before, bytes, topped, stream, parallel, parallel, timeSteps)
    && layout == MBLayout(parallel, timeSteps, PackedLayout(topped, parallel, parallel, timeSteps))
    && dataSize == PackedSamples(topped, parallel, parallel, timeSteps) * GetSampleSize(stream)
  }

  class BpttPacker {
    const transformer: Transformer
    const minibatchSize: nat
    const truncationSize: nat
    const parallelNumberOfSequences: nat
    const inputStreams: seq<StreamDescription>
    const outputStreams: seq<StreamDescription>
    /** One buffer of P * T samples per stream, sample (row, slot) at (row * P + slot) * sampleSize. */
    const streamBuffers: seq<array<bv8>>
    /** One layout per stream, reset and refilled by every ReadMinibatch. */
    const currentLayouts: seq<Layout>
    var sequenceBufferPerStream: seq<SequenceBuffer>

    /** What the constructor establishes of the constants: the checks it asserts, P >= 1,
        and one distinct buffer of P * T samples and one distinct layout per stream. */
    ghost predicate Config() {
      && |outputStreams| >= 1
      && ConstructionAllowed(inputStreams, outputStreams, minibatchSize)
      && truncationSize >= 1
      && parallelNumberOfSequences == minibatchSize / truncationSize
      && parallelNumberOfSequences >= 1
      && transformer.streams == inputStreams
      && |streamBuffers| == |outputStreams|
      && (forall s :: 0 <= s < |streamBuffers| ==>
            streamBuffers[s].Length == parallelNumberOfSequences * truncationSize * GetSampleSize(inputStreams[s]))
      && (forall s, t :: 0 <= s < t < |streamBuffers| ==> streamBuffers[s] != streamBuffers[t])
      && |currentLayouts| == |outputStreams|
      && (forall s, t :: 0 <= s < t < |currentLayouts| ==> currentLayouts[s] != currentLayouts[t])
    }

    ghost predicate Valid()
      reads this, transformer
    {
      && Config()
      && transformer.Valid()
      && AllValid(sequenceBufferPerStream, parallelNumberOfSequences, inputStreams)
    }

    /** The streams' slots hold sequences of the same lengths with the same cursors. */
    ghost predicate Aligned()
      reads this, transformer
      requires Valid()
    {
      InStep(sequenceBufferPerStream, parallelNumberOfSequences)
    }

    ghost function Buffers(): set<array<bv8>> {
      set s | 0 <= s < |streamBuffers| :: streamBuffers[s]
    }

    ghost function Layouts(): set<Layout> {
      set s | 0 <= s < |currentLayouts| :: currentLayouts[s]
    }

    /** The constructor: P = minibatchSize / T, one empty SequenceBuffer, one stream
        buffer of P * T samples and one layout per stream, then InitializePreparedSequences.
        The code itself pushes a null buffer and fills no layout; allocating them here is
        the evident intent. */
    constructor (transformer: Transformer, minibatchSize: nat, truncationSize: nat, streams: seq<StreamDescription>)
      requires transformer.Valid() && ConstructionAllowed(transformer.streams, streams, minibatchSize)
      requires |streams| >= 1 && truncationSize >= 1 && minibatchSize / truncationSize >= 1
      modifies transformer
      ensures Valid() && Aligned()
      ensures this.transformer == transformer && inputStreams == transformer.streams && outputStreams == streams
      ensures parallelNumberOfSequences == minibatchSize / truncationSize
      ensures Fill(sequenceBufferPerStream, transformer.remaining)
              == TopUp(seq(|streams|, _ => EmptyBuffer(minibatchSize / truncationSize)), minibatchSize / truncationSize,
                       old(transformer.remaining), truncationSize, minibatchSize / truncationSize)
      ensures forall s :: 0 <= s < |streamBuffers| ==> fresh(streamBuffers[s])
      ensures forall s :: 0 <= s < |currentLayouts| ==> fresh(currentLayouts[s])
    {
      var parallel := minibatchSize / truncationSize;
      var buffers: seq<array<bv8>> := [];
      var layouts: seq<Layout> := [];
      for i := 0 to |streams|
        invariant |buffers| == i && |layouts| == i
        invariant forall s :: 0 <= s < i ==> fresh(buffers[s]) && fresh(layouts[s])
        invariant forall s :: 0 <= s < i ==> buffers[s].Length == parallel * truncationSize * GetSampleSize(transformer.streams[s])
        invariant forall s, t :: 0 <= s < t < i ==> buffers[s] != buffers[t] && layouts[s] != layouts[t]
        invariant transformer.remaining == old(transformer.remaining)
      {
        var buffer := new bv8[parallel * truncationSize * GetSampleSize(transformer.streams[i])];
        var layout := new Layout();
        buffers := buffers + [buffer];
        layouts := layouts + [layout];
      }
      this.transformer := transformer;
      this.minibatchSize := minibatchSize;
      this.truncationSize := truncationSize;
      parallelNumberOfSequences := parallel;
      inputStreams := transformer.streams;
      outputStreams := streams;
      streamBuffers := buffers;
      currentLayouts := layouts;
      sequenceBufferPerStream := seq(|streams|, _ => EmptyBuffer(parallel));
      new;
      EmptyValid(|streams|, parallel, inputStreams);
      assert Config();
      assert Valid() && Aligned();
      InitializePreparedSequences();
    }

    /** ReadMinibatch: every slot is topped up first (InitializePreparedSequences); the
        epoch ends when the first stream then has nothing to pack. Otherwise every stream
        is packed in turn (PackStream) and the minibatch holds one StreamMinibatch per
        stream. */
    method ReadMinibatch() returns (result: Minibatch)
      requires Valid() && Aligned()
      modifies this, transformer, Buffers(), Layouts()
      ensures Valid() && Aligned()
      ensures result.endOfEpoch <==> old(transformer.remaining) == [] && NothingToPack(old(sequenceBufferPerStream[0]))
      ensures var f := ToppedUp(old(sequenceBufferPerStream), parallelNumberOfSequences, inputStreams, old(transformer.remaining), truncationSize);
              && transformer.remaining == f.remaining
              && (result.endOfEpoch ==>
                    && result.data == []
                    && sequenceBufferPerStream == f.buffers
                    && forall s :: 0 <= s < |streamBuffers| ==> streamBuffers[s][..] == old(streamBuffers[s][..]))
              && (!result.endOfEpoch ==>
                    && |result.data| == |outputStreams|
                    && forall s :: 0 <= s < |outputStreams| ==>
                         && result.data[s].data == streamBuffers[s]
                         && result.data[s].layout == currentLayouts[s]
                         && StreamPacked(f.buffers[s], sequenceBufferPerStream[s], old(streamBuffers[s][..]), streamBuffers[s][..],
                                         currentLayouts[s].Value(), result.data[s].dataSize,
                                         parallelNumberOfSequences, truncationSize, inputStreams[s]))
    {
      ghost var f := ToppedUp(sequenceBufferPerStream, parallelNumberOfSequences, inputStreams, transformer.remaining, truncationSize);
      TopUpEmptyIff(sequenceBufferPerStream, parallelNumberOfSequences, inputStreams, transformer.remaining, truncationSize);
      InitializePreparedSequences();
      assert sequenceBufferPerStream == f.buffers && transformer.remaining == f.remaining;

      // Currently all streams are expected to hold sequences of identical lengths.
      if NothingToPack(sequenceBufferPerStream[0]) {
        return Minibatch(true, []);
      }

      forall k | 0 <= k < parallelNumberOfSequences
        ensures truncationSize <= f.buffers[0].preparedSequenceLength[k] || f.remaining == []
      {
        TopUpStops(old(sequenceBufferPerStream), parallelNumberOfSequences, old(transformer.remaining), truncationSize, parallelNumberOfSequences, k);
      }
      var data := PackStreams();
      result := Minibatch(false, data);
    }

    /** ReadMinibatch's loop over the streams, on buffers whose slots are topped up: every
        stream is packed in turn (PackStream), and the streams stay in step. */
    method PackStreams() returns (data: seq<StreamMinibatch>)
      requires Valid() && Aligned()
      requires transformer.remaining == [] || forall k :: 0 <= k < parallelNumberOfSequences ==>
                 truncationSize <= sequenceBufferPerStream[0].preparedSequenceLength[k]
      modifies this, transformer, Buffers(), Layouts()
      ensures Valid() && Aligned()
      ensures transformer.remaining == old(transformer.remaining)
      ensures |data| == |outputStreams|
      ensures forall s :: 0 <= s < |outputStreams| ==>
                && data[s].data == streamBuffers[s]
                && data[s].layout == currentLayouts[s]
                && StreamPacked(old(sequenceBufferPerStream[s]), sequenceBufferPerStream[s], old(streamBuffers[s][..]), streamBuffers[s][..],
                                currentLayouts[s].Value(), data[s].dataSize,
                                parallelNumberOfSequences, truncationSize, inputStreams[s])
    {
      ghost var topped := sequenceBufferPerStream;
      ghost var before := seq(|streamBuffers|, t requires 0 <= t < |streamBuffers| reads Buffers() => streamBuffers[t][..]);
      assert InStep(topped, parallelNumberOfSequences);
      data := [];
      for s := 0 to |outputStreams|
        invariant Valid()
        invariant transformer.remaining == old(transformer.remaining)
        invariant StreamsPacked(s, topped, before, data)
      {
        if transformer.remaining != [] {
          forall k | 0 <= k < parallelNumberOfSequences
            ensures truncationSize <= topped[s].preparedSequenceLength[k]
          {
            assert topped[s].preparedSequenceLength[k] == topped[0].preparedSequenceLength[k];
          }
        }
        data := PackStreamAt(s, topped, before, data);
      }
      forall t | 0 <= t < |outputStreams|
        ensures AllCounted(topped[t], parallelNumberOfSequences)
        ensures sequenceBufferPerStream[t] == PackedBuffer(topped[t], parallelNumberOfSequences, parallelNumberOfSequences, truncationSize)
      {
        assert StreamPacked(topped[t], sequenceBufferPerStream[t], before[t], streamBuffers[t][..],
                            currentLayouts[t].Value(), data[t].dataSize,
                            parallelNumberOfSequences, truncationSize, inputStreams[t]);
        ValidCounted(topped[t], parallelNumberOfSequences, inputStreams[t]);
      }
      PackedAllInStep(topped, sequenceBufferPerStream, parallelNumberOfSequences, truncationSize, inputStreams);
    }

    /** Streams before `count` are packed from `topped` over the bytes `before` they
        held, data[t] is stream t's minibatch, and the later streams are untouched. */
    ghost predicate StreamsPacked(count: nat, topped: seq<SequenceBuffer>, before: seq<seq<bv8>>, data: seq<StreamMinibatch>)
      reads this, Buffers(), Layouts()
      requires Config() && |sequenceBufferPerStream| == |outputStreams| && AllValid(topped, parallelNumberOfSequences, inputStreams)
    {
      && count <= |outputStreams|
      && |data| == count
      && |before| == |outputStreams|
      && (forall t :: 0 <= t < |before| ==> |before[t]| == streamBuffers[t].Length)
      && (forall t :: count <= t < |outputStreams| ==> sequenceBufferPerStream[t] == topped[t] && streamBuffers[t][..] == before[t])
      && forall t :: 0 <= t < count ==>
           && data[t].data == streamBuffers[t]
           && data[t].layout == currentLayouts[t]
           && StreamPacked(topped[t], sequenceBufferPerStream[t], before[t], streamBuffers[t][..],
                           currentLayouts[t].Value(), data[t].dataSize,
                           parallelNumberOfSequences, truncationSize, inputStreams[t])
    }

    /** One iteration of ReadMinibatch's loop over the streams: stream `s` packed. */
    method PackStreamAt(s: nat, ghost topped: seq<SequenceBuffer>, ghost before: seq<seq<bv8>>, data: seq<StreamMinibatch>)
      returns (data': seq<StreamMinibatch>)
      requires Valid() && s < |outputStreams| && AllValid(topped, parallelNumberOfSequences, inputStreams)
      requires transformer.remaining == [] || forall k :: 0 <= k < parallelNumberOfSequences ==>
                 truncationSize <= topped[s].preparedSequenceLength[k]
      requires StreamsPacked(s, topped, before, data)
      modifies this, transformer, streamBuffers[s], currentLayouts[s]
      ensures Valid()
      ensures transformer.remaining == old(transformer.remaining)
      ensures StreamsPacked(s + 1, topped, before, data')
    {
      var m := PackStream(s);
      data' := data + [m];
    }

    /** The body of ReadMinibatch's loop over the streams, on a stream whose slots are
        topped up: the layout is reset to P x T, every slot is packed in turn
        (PackSequence), and the minibatch of the stream holds the stream buffer,
        GetActualNumSamples() samples' worth of bytes and the layout. */
    method PackStream(streamIndex: nat) returns (m: StreamMinibatch)
      requires Valid() && streamIndex < |outputStreams|
      requires transformer.remaining == [] || forall k :: 0 <= k < parallelNumberOfSequences ==>
                 truncationSize <= sequenceBufferPerStream[streamIndex].preparedSequenceLength[k]
      modifies this, transformer, streamBuffers[streamIndex], currentLayouts[streamIndex]
      ensures Valid()
      ensures transformer.remaining == old(transformer.remaining)
      ensures sequenceBufferPerStream == old(sequenceBufferPerStream)[streamIndex := sequenceBufferPerStream[streamIndex]]
      ensures m.data == streamBuffers[streamIndex] && m.layout == currentLayouts[streamIndex]
      ensures StreamPacked(old(sequenceBufferPerStream[streamIndex]), sequenceBufferPerStream[streamIndex],
                           old(streamBuffers[streamIndex][..]), streamBuffers[streamIndex][..],
                           currentLayouts[streamIndex].Value(), m.dataSize,
                           parallelNumberOfSequences, truncationSize, inputStreams[streamIndex])
    {
      var stream := inputStreams[streamIndex];
      var layout := currentLayouts[streamIndex];
      ghost var b := sequenceBufferPerStream[streamIndex];
      ghost var bytes := streamBuffers[streamIndex][..];
      layout.Init(parallelNumberOfSequences, truncationSize);
      PackSlots(streamIndex, b, bytes);
      ghost var sampleSize := GetSampleSize(stream);
      assert BufferValid(b, parallelNumberOfSequences, stream);
      ValidCounted(b, parallelNumberOfSequences, stream);
      PackedLayoutCovers(b, parallelNumberOfSequences, parallelNumberOfSequences, truncationSize);
      assert GetSampleSize(outputStreams[streamIndex]) == sampleSize;
      MulLeMonotone(0, layout.GetActualNumSamples(), sampleSize);
      var dataSize := layout.GetActualNumSamples() * GetSampleSize(outputStreams[streamIndex]);
      m := StreamMinibatch(streamBuffers[streamIndex], dataSize, layout);
    }

    /** PackStream's loop: PackSequence on every slot in turn, from a freshly reset layout. */
    method PackSlots(streamIndex: nat, ghost b: SequenceBuffer, ghost bytes: seq<bv8>)
      requires Valid() && streamIndex < |outputStreams|
      requires sequenceBufferPerStream[streamIndex] == b && streamBuffers[streamIndex][..] == bytes
      requires transformer.remaining == [] || forall k :: 0 <= k < parallelNumberOfSequences ==>
                 truncationSize <= b.preparedSequenceLength[k]
      requires currentLayouts[streamIndex].Value() == MBLayout(parallelNumberOfSequences, truncationSize, [])
      modifies this, transformer, streamBuffers[streamIndex], currentLayouts[streamIndex]
      ensures Valid()
      ensures transformer.remaining == old(transformer.remaining)
      ensures BufferValid(b, parallelNumberOfSequences, inputStreams[streamIndex]) && AllCounted(b, parallelNumberOfSequences)
      ensures sequenceBufferPerStream
              == old(sequenceBufferPerStream)[streamIndex := PackedBuffer(b, parallelNumberOfSequences, parallelNumberOfSequences, truncationSize)]
      ensures currentLayouts[streamIndex].Value()
              == MBLayout(parallelNumberOfSequences, truncationSize, PackedLayout(b, parallelNumberOfSequences, parallelNumberOfSequences, truncationSize))
      ensures WindowsPacked(bytes, streamBuffers[streamIndex][..], b, inputStreams[streamIndex], parallelNumberOfSequences, parallelNumberOfSequences, truncationSize)
    {
      var stream := inputStreams[streamIndex];
      var layout := currentLayouts[streamIndex];
      assert BufferValid(b, parallelNumberOfSequences, stream);
      assert |bytes| == parallelNumberOfSequences * truncationSize * GetSampleSize(stream);
      NoSlotPacked(b, parallelNumberOfSequences, stream, truncationSize, bytes);
      for k := 0 to parallelNumberOfSequences
        invariant Valid()
        invariant transformer.remaining == old(transformer.remaining)
        invariant sequenceBufferPerStream
                  == old(sequenceBufferPerStream)[streamIndex := PackedBuffer(b, parallelNumberOfSequences, k, truncationSize)]
        invariant layout.Value() == MBLayout(parallelNumberOfSequences, truncationSize, PackedLayout(b, parallelNumberOfSequences, k, truncationSize))
        invariant WindowsPacked(bytes, streamBuffers[streamIndex][..], b, stream, parallelNumberOfSequences, k, truncationSize)
      {
        PackNextSlot(streamIndex, k, b, bytes);
      }
    }

    /** One iteration of PackStream's loop: PackSequence(s, k) on a stream whose slots
        before k are packed and whose slot k is topped up, so that no refill happens. */
    method PackNextSlot(streamIndex: nat, k: nat, ghost b: SequenceBuffer, ghost bytes: seq<bv8>)
      requires Valid() && streamIndex < |outputStreams| && k < parallelNumberOfSequences
      requires BufferValid(b, parallelNumberOfSequences, inputStreams[streamIndex]) && AllCounted(b, parallelNumberOfSequences)
      requires transformer.remaining == [] || truncationSize <= b.preparedSequenceLength[k]
      requires |bytes| == streamBuffers[streamIndex].Length
      requires sequenceBufferPerStream[streamIndex] == PackedBuffer(b, parallelNumberOfSequences, k, truncationSize)
      requires currentLayouts[streamIndex].Value()
               == MBLayout(parallelNumberOfSequences, truncationSize, PackedLayout(b, parallelNumberOfSequences, k, truncationSize))
      requires WindowsPacked(bytes, streamBuffers[streamIndex][..], b, inputStreams[streamIndex], parallelNumberOfSequences, k, truncationSize)
      modifies this, transformer, streamBuffers[streamIndex], currentLayouts[streamIndex]
      ensures Valid()
      ensures transformer.remaining == old(transformer.remaining)
      ensures sequenceBufferPerStream
              == old(sequenceBufferPerStream)[streamIndex := PackedBuffer(b, parallelNumberOfSequences, k + 1, truncationSize)]
      ensures currentLayouts[streamIndex].Value()
              == MBLayout(parallelNumberOfSequences, truncationSize, PackedLayout(b, parallelNumberOfSequences, k + 1, truncationSize))
      ensures WindowsPacked(bytes, streamBuffers[streamIndex][..], b, inputStreams[streamIndex], parallelNumberOfSequences, k + 1, truncationSize)
    {
      ghost var stream := inputStreams[streamIndex];
      NextSlotPacked(sequenceBufferPerStream, parallelNumberOfSequences, inputStreams, streamIndex, k, truncationSize,
                     transformer.remaining, b, bytes, streamBuffers[streamIndex][..]);
      PackSequence(streamIndex, k);
    }

    /** InitializePreparedSequences: GetSequencesToSlot for every slot in turn. */
    method InitializePreparedSequences()
      requires Valid()
      modifies this, transformer
      ensures Valid()
      ensures old(Aligned()) ==> Aligned()
      ensures Fill(sequenceBufferPerStream, transformer.remaining)
              == TopUp(old(sequenceBufferPerStream), parallelNumberOfSequences, old(transformer.remaining), truncationSize, parallelNumberOfSequences)
    {
      for slot := 0 to parallelNumberOfSequences
        invariant Valid()
        invariant old(Aligned()) ==> Aligned()
        invariant Fill(sequenceBufferPerStream, transformer.remaining)
                  == TopUp(old(sequenceBufferPerStream), parallelNumberOfSequences, old(transformer.remaining), truncationSize, slot)
      {
        GetSequencesToSlot(slot);
      }
    }

    /** GetSequencesToSlot: while the first stream holds fewer than T samples in the slot,
        one more batch is fetched and its sequences appended to the slot, one per stream. */
    method GetSequencesToSlot(slotIndex: nat)
      requires Valid() && slotIndex < parallelNumberOfSequences
      modifies this, transformer
      ensures Valid()
      ensures old(Aligned()) ==> Aligned()
      ensures Fill(sequenceBufferPerStream, transformer.remaining)
              == Refill(old(sequenceBufferPerStream), parallelNumberOfSequences, slotIndex, old(transformer.remaining), truncationSize)
    {
      while truncationSize > sequenceBufferPerStream[0].preparedSequenceLength[slotIndex]
        invariant Valid()
        invariant old(Aligned()) ==> Aligned()
        invariant Refill(sequenceBufferPerStream, parallelNumberOfSequences, slotIndex, transformer.remaining, truncationSize)
                  == Refill(old(sequenceBufferPerStream), parallelNumberOfSequences, slotIndex, old(transformer.remaining), truncationSize)
        decreases |transformer.remaining|
      {
        ghost var before := sequenceBufferPerStream;
        var endOfEpoch, data := transformer.GetNextSequences();
        if endOfEpoch {
          break;
        }
        assert BatchFits(data, inputStreams);
        PushToSlot(slotIndex, data);
        PushBatchValid(before, parallelNumberOfSequences, inputStreams, slotIndex, data);
      }
    }

    /** The body of GetSequencesToSlot's loop: the batch's sequences appended to the slot,
        one per stream. */
    method PushToSlot(slotIndex: nat, data: seq<SequenceData>)
      requires slotIndex < parallelNumberOfSequences && |data| == |sequenceBufferPerStream|
      requires AllSized(sequenceBufferPerStream, parallelNumberOfSequences)
      modifies this
      ensures sequenceBufferPerStream == PushBatch(old(sequenceBufferPerStream), parallelNumberOfSequences, slotIndex, data)
    {
      for i := 0 to |data|
        invariant |sequenceBufferPerStream| == |old(sequenceBufferPerStream)|
        invariant forall s :: 0 <= s < |data| ==>
                    sequenceBufferPerStream[s]
                    == if s < i then PushSequence(old(sequenceBufferPerStream)[s], slotIndex, data[s]) else old(sequenceBufferPerStream)[s]
      {
        sequenceBufferPerStream := sequenceBufferPerStream[i := PushSequence(sequenceBufferPerStream[i], slotIndex, data[i])];
      }
    }

    /** PackSequence: refills the slot through GetSequencesToSlot when stream `streamIndex`
        holds fewer than T samples in it, then packs the slot's window (PackWindow). */
    method PackSequence(streamIndex: nat, slotIndex: nat)
      requires Valid() && streamIndex < |outputStreams| && slotIndex < parallelNumberOfSequences
      modifies this, transformer, streamBuffers[streamIndex], currentLayouts[streamIndex]
      ensures Valid()
      ensures var f := Prepared(old(sequenceBufferPerStream), parallelNumberOfSequences, inputStreams, streamIndex, slotIndex,
                                old(transformer.remaining), truncationSize);
              var r := WindowPacked(f.buffers[streamIndex], parallelNumberOfSequences, inputStreams[streamIndex], slotIndex,
                                    truncationSize, old(streamBuffers[streamIndex][..]));
              && sequenceBufferPerStream == f.buffers[streamIndex := r.buffer]
              && transformer.remaining == f.remaining
              && currentLayouts[streamIndex].Value() == Appended(old(currentLayouts[streamIndex].Value()), r.entries)
              && streamBuffers[streamIndex][..] == r.bytes
    {
      if sequenceBufferPerStream[streamIndex].preparedSequenceLength[slotIndex] < truncationSize {
        GetSequencesToSlot(slotIndex);
      }
      PackWindow(streamIndex, slotIndex);
    }

    /** The packing part of PackSequence, on a slot already refilled: n = min(T, buffered)
        samples are packed, sample i into time step i of the slot; a record is added for
        every sequence the window touches and, when n < T, a gap record for the rest of the
        window. Nothing is packed when n is 0. */
    method PackWindow(streamIndex: nat, slotIndex: nat)
      requires Valid() && streamIndex < |outputStreams| && slotIndex < parallelNumberOfSequences
      modifies this, streamBuffers[streamIndex], currentLayouts[streamIndex]
      ensures Valid()
      ensures var r := WindowPacked(old(sequenceBufferPerStream[streamIndex]), parallelNumberOfSequences, inputStreams[streamIndex],
                                    slotIndex, truncationSize, old(streamBuffers[streamIndex][..]));
              && sequenceBufferPerStream == old(sequenceBufferPerStream)[streamIndex := r.buffer]
              && currentLayouts[streamIndex].Value() == Appended(old(currentLayouts[streamIndex].Value()), r.entries)
              && streamBuffers[streamIndex][..] == r.bytes
    {
      ghost var prepared := sequenceBufferPerStream;
      ghost var layout := currentLayouts[streamIndex].Value();
      var buffer := sequenceBufferPerStream[streamIndex];
      var stream := inputStreams[streamIndex];
      assert BufferValid(buffer, parallelNumberOfSequences, stream);
      assert SlotValid(buffer, slotIndex, stream);
      var numberOfSamples := if truncationSize < buffer.preparedSequenceLength[slotIndex] then truncationSize
                             else buffer.preparedSequenceLength[slotIndex];
      if numberOfSamples == 0 {
        // Reached the end: nothing to pack.
        assert ConsumeSlot(buffer, slotIndex, truncationSize) == buffer;
        assert prepared[streamIndex := buffer] == prepared;
        assert layout == Appended(layout, []);
        return;
      }

      var packed := PackLane(streamIndex, slotIndex, stream, buffer, numberOfSamples);
      sequenceBufferPerStream := sequenceBufferPerStream[streamIndex := packed];
      ConsumeSlotValid(buffer, parallelNumberOfSequences, stream, slotIndex, truncationSize);
      PackingValid(prepared, parallelNumberOfSequences, inputStreams, streamIndex, ConsumeSlot(buffer, slotIndex, truncationSize));
    }

    /** PackSequence on a slot with n >= 1 samples to pack: the window is packed
        (PackSamples), a gap record closes it when n < T, and the slot's queue, count and
        cursor are those the window leaves. */
    method PackLane(streamIndex: nat, slotIndex: nat, stream: StreamDescription, buffer: SequenceBuffer, numberOfSamples: nat)
      returns (packed: SequenceBuffer)
      requires streamIndex < |currentLayouts| && streamIndex < |streamBuffers| && slotIndex < parallelNumberOfSequences
      requires BufferValid(buffer, parallelNumberOfSequences, stream) && IsFloatingPoint(stream.elementType)
      requires streamBuffers[streamIndex].Length == parallelNumberOfSequences * truncationSize * GetSampleSize(stream)
      requires numberOfSamples == Min(truncationSize, buffer.preparedSequenceLength[slotIndex]) >= 1
      modifies currentLayouts[streamIndex], streamBuffers[streamIndex]
      ensures var r := WindowPacked(buffer, parallelNumberOfSequences, stream, slotIndex, truncationSize, old(streamBuffers[streamIndex][..]));
              && packed == r.buffer
              && currentLayouts[streamIndex].Value() == Appended(old(currentLayouts[streamIndex].Value()), r.entries)
              && streamBuffers[streamIndex][..] == r.bytes
    {
      ghost var layout := currentLayouts[streamIndex].Value();
      ghost var bytes := streamBuffers[streamIndex][..];
      var queue, samplePosition := PackLaneWindow(streamIndex, slotIndex, stream, buffer, numberOfSamples);
      packed := SequenceBuffer(
        buffer.preparedSequences[slotIndex := queue],
        buffer.preparedSequenceLength[slotIndex := buffer.preparedSequenceLength[slotIndex] - numberOfSamples],
        buffer.sequenceSamplePosition[slotIndex := samplePosition]);
      LaneWindowEnds(buffer, parallelNumberOfSequences, stream, slotIndex, truncationSize, numberOfSamples, bytes,
                     queue, samplePosition, packed, streamBuffers[streamIndex][..], layout, currentLayouts[streamIndex].Value());
    }

    /** PackLane's loop and gap record, from the slot's queue and cursor: LaneWindowDone. */
    method PackLaneWindow(streamIndex: nat, slotIndex: nat, stream: StreamDescription, buffer: SequenceBuffer, numberOfSamples: nat)
      returns (queue: seq<SequenceData>, samplePosition: nat)
      requires streamIndex < |currentLayouts| && streamIndex < |streamBuffers| && slotIndex < parallelNumberOfSequences
      requires BufferValid(buffer, parallelNumberOfSequences, stream) && IsFloatingPoint(stream.elementType)
      requires streamBuffers[streamIndex].Length == parallelNumberOfSequences * truncationSize * GetSampleSize(stream)
      requires numberOfSamples == Min(truncationSize, buffer.preparedSequenceLength[slotIndex]) >= 1
      modifies currentLayouts[streamIndex], streamBuffers[streamIndex]
      ensures LaneWindowDone(buffer, parallelNumberOfSequences, stream, slotIndex, truncationSize, numberOfSamples,
                             old(streamBuffers[streamIndex][..]), queue, samplePosition,
                             streamBuffers[streamIndex][..], old(currentLayouts[streamIndex].Value()), currentLayouts[streamIndex].Value())
    {
      ghost var layout := currentLayouts[streamIndex].Value();
      ghost var lane := LaneOf(buffer, slotIndex);
      LaneReady(buffer, parallelNumberOfSequences, stream, slotIndex, truncationSize, numberOfSamples);
      ghost var spans := SequenceSpans(slotIndex, lane.queue, lane.position, Touched(lane, numberOfSamples));
      queue, samplePosition := PackSamples(streamIndex, slotIndex, stream, buffer.preparedSequences[slotIndex],
                                           buffer.sequenceSamplePosition[slotIndex], numberOfSamples);
      CloseWindow(streamIndex, slotIndex, numberOfSamples, layout, spans);
    }

    /** The end of PackSequence: when the slot ran dry before T, a gap record for the
        rest of the window. */
    method CloseWindow(streamIndex: nat, slotIndex: nat, numberOfSamples: nat, ghost layout: MBLayout, ghost spans: seq<LayoutEntry>)
      requires streamIndex < |currentLayouts| && currentLayouts[streamIndex].Value() == Appended(layout, spans)
      modifies currentLayouts[streamIndex]
      ensures currentLayouts[streamIndex].Value()
              == Appended(layout, spans + if numberOfSamples < truncationSize then [LayoutEntry(slotIndex, GapSpan(numberOfSamples, truncationSize - numberOfSamples))] else [])
    {
      if numberOfSamples < truncationSize {
        var gap := LayoutEntry(slotIndex, GapSpan(numberOfSamples, truncationSize - numberOfSamples));
        currentLayouts[streamIndex].AddSequence(gap);
        assert layout.entries + spans + [gap] == layout.entries + (spans + [gap]);
      } else {
        assert spans + [] == spans;
      }
    }

    /** PackSequence's loop over the n >= 1 samples of slot `slotIndex`'s window, from the
        slot's queue and cursor: the record of the front sequence first, then sample i is
        copied into time step i at i * stride + slotIndex * sampleSize (stride = P *
        sampleSize), a record is added for every sequence that starts inside the window,
        and a sequence whose last sample was packed leaves the queue. */
    method PackSamples(streamIndex: nat, slotIndex: nat, stream: StreamDescription, queue0: seq<SequenceData>, position0: nat,
                       numberOfSamples: nat)
      returns (queue: seq<SequenceData>, samplePosition: nat)
      requires streamIndex < |currentLayouts| && streamIndex < |streamBuffers| && slotIndex < parallelNumberOfSequences
      requires Positioned(Lane(queue0, position0)) && IsFloatingPoint(stream.elementType)
      requires forall j :: 0 <= j < |queue0| ==> Fits(queue0[j], stream)
      requires 1 <= numberOfSamples <= Buffered(Lane(queue0, position0)) && numberOfSamples <= truncationSize
      requires streamBuffers[streamIndex].Length == parallelNumberOfSequences * truncationSize * GetSampleSize(stream)
      requires RefsCopyable(Pending(Lane(queue0, position0)), ElementSize(stream.elementType), GetSampleSize(stream))
      modifies currentLayouts[streamIndex], streamBuffers[streamIndex]
      ensures Lane(queue, samplePosition) == Consume(Lane(queue0, position0), numberOfSamples)
      ensures currentLayouts[streamIndex].Value()
              == Appended(old(currentLayouts[streamIndex].Value()),
                          SequenceSpans(slotIndex, queue0, position0, Touched(Lane(queue0, position0), numberOfSamples)))
      ensures streamBuffers[streamIndex][..]
              == PackedSlot(old(streamBuffers[streamIndex][..]), slotIndex, Pending(Lane(queue0, position0))[..numberOfSamples],
                            parallelNumberOfSequences, truncationSize, ElementSize(stream.elementType), GetSampleSize(stream))
    {
      ghost var lane := Lane(queue0, position0);
      ghost var layout := currentLayouts[streamIndex].Value();
      ghost var bytes := streamBuffers[streamIndex][..];
      ghost var window := Pending(lane)[..numberOfSamples];
      queue, samplePosition := queue0, position0;

      WindowOpens(slotIndex, lane, bytes, window, parallelNumberOfSequences, truncationSize, ElementSize(stream.elementType), GetSampleSize(stream));
      var first := LayoutEntry(slotIndex, SequenceSpan(-(samplePosition as int), queue[0].numberOfSamples, samplePosition > 0));
      currentLayouts[streamIndex].AddSequence(first);
      queue, samplePosition := PackWindowSamples(streamIndex, slotIndex, stream, queue, samplePosition, numberOfSamples,
                                                 lane, layout, bytes, window, [first]);
    }

    /** PackSequence's loop over the window's samples, after the first record was added. */
    method PackWindowSamples(streamIndex: nat, slotIndex: nat, stream: StreamDescription, queue0: seq<SequenceData>, position0: nat,
                             numberOfSamples: nat,
                             ghost lane: Lane, ghost layout: MBLayout, ghost bytes: seq<bv8>, ghost window: seq<SampleRef>,
                             ghost added0: seq<LayoutEntry>)
      returns (queue: seq<SequenceData>, samplePosition: nat)
      requires streamIndex < |currentLayouts| && streamIndex < |streamBuffers| && slotIndex < parallelNumberOfSequences
      requires IsFloatingPoint(stream.elementType) && forall j :: 0 <= j < |lane.queue| ==> Fits(lane.queue[j], stream)
      requires |window| == numberOfSamples && Positioned(lane) && numberOfSamples <= Buffered(lane)
      requires window == Pending(lane)[..|window|] && |bytes| == streamBuffers[streamIndex].Length
      requires SamplesPacked(slotIndex, stream, parallelNumberOfSequences, truncationSize, lane, layout, bytes, window, 0,
                             queue0, position0, added0, currentLayouts[streamIndex].Value(),
                             streamBuffers[streamIndex][..])
      modifies currentLayouts[streamIndex], streamBuffers[streamIndex]
      ensures Lane(queue, samplePosition) == Consume(lane, numberOfSamples)
      ensures currentLayouts[streamIndex].Value()
              == Appended(layout, SequenceSpans(slotIndex, lane.queue, lane.position, Touched(lane, numberOfSamples)))
      ensures streamBuffers[streamIndex][..] == PackedSlot(bytes, slotIndex, window, parallelNumberOfSequences,
                                                            truncationSize, ElementSize(stream.elementType), GetSampleSize(stream))
    {
      queue, samplePosition := queue0, position0;
      ghost var added := added0;
      for i := 0 to numberOfSamples
        invariant SamplesPacked(slotIndex, stream, parallelNumberOfSequences, truncationSize, lane, layout, bytes, window, i,
                                queue, samplePosition, added, currentLayouts[streamIndex].Value(),
                                streamBuffers[streamIndex][..])
      {
        queue, samplePosition, added := PackNextSample(streamIndex, slotIndex, stream, i, queue, samplePosition,
                                                       lane, layout, bytes, window, added);
        SamplesAdvance(slotIndex, stream, parallelNumberOfSequences, truncationSize, lane, layout, bytes, window, i,
                       queue, samplePosition, added, currentLayouts[streamIndex].Value(), streamBuffers[streamIndex][..]);
      }
      assert window[..numberOfSamples] == window;
    }

    /** One iteration of PackSequence's loop at sample i of the window: a record when a
        new sequence starts at i (i > 0), the copy of the sample, and the cursor moved on. */
    method PackNextSample(streamIndex: nat, slotIndex: nat, stream: StreamDescription, i: nat,
                          queue: seq<SequenceData>, samplePosition: nat,
                          ghost lane: Lane, ghost layout: MBLayout,
                          ghost bytes: seq<bv8>, ghost window: seq<SampleRef>, ghost added: seq<LayoutEntry>)
      returns (queue': seq<SequenceData>, samplePosition': nat, ghost added': seq<LayoutEntry>)
      requires streamIndex < |currentLayouts| && streamIndex < |streamBuffers| && slotIndex < parallelNumberOfSequences
      requires Positioned(lane) && IsFloatingPoint(stream.elementType)
      requires forall j :: 0 <= j < |lane.queue| ==> Fits(lane.queue[j], stream)
      requires i < |window| <= truncationSize && |window| <= Buffered(lane) && window == Pending(lane)[..|window|]
      requires |bytes| == streamBuffers[streamIndex].Length == parallelNumberOfSequences * truncationSize * GetSampleSize(stream)
      requires RefsCopyable(window, ElementSize(stream.elementType), GetSampleSize(stream))
      requires Lane(queue, samplePosition) == Consume(lane, i)
      requires added == SequenceSpans(slotIndex, lane.queue, lane.position, Touched(lane, Max(i, 1)))
      requires currentLayouts[streamIndex].Value() == Appended(layout, added)
      requires streamBuffers[streamIndex][..] == PackedSlot(bytes, slotIndex, window[..i], parallelNumberOfSequences,
                                                             truncationSize, ElementSize(stream.elementType), GetSampleSize(stream))
      modifies currentLayouts[streamIndex], streamBuffers[streamIndex]
      ensures Lane(queue', samplePosition') == Consume(lane, i + 1)
      ensures added' == SequenceSpans(slotIndex, lane.queue, lane.position, Touched(lane, i + 1))
      ensures currentLayouts[streamIndex].Value() == Appended(layout, added')
      ensures streamBuffers[streamIndex][..] == PackedSlot(bytes, slotIndex, window[..i + 1], parallelNumberOfSequences,
                                                            truncationSize, ElementSize(stream.elementType), GetSampleSize(stream))
    {
      WindowStep(slotIndex, stream, lane, i, queue, samplePosition, added);
      added' := RecordStart(streamIndex, slotIndex, i, queue[0], samplePosition, layout, added);
      PackSample(streamIndex, slotIndex, i, stream, queue[0], samplePosition, bytes, window);
      queue', samplePosition' := Advance(queue, samplePosition);
    }

    /** The record PackSequence's loop adds when sample i > 0 is the first of a sequence:
        that sequence begins i samples into the window. */
    method RecordStart(streamIndex: nat, slotIndex: nat, i: nat, front: SequenceData, samplePosition: nat,
                       ghost layout: MBLayout, ghost added: seq<LayoutEntry>)
      returns (ghost added': seq<LayoutEntry>)
      requires streamIndex < |currentLayouts| && currentLayouts[streamIndex].Value() == Appended(layout, added)
      modifies currentLayouts[streamIndex]
      ensures added' == if i > 0 && samplePosition == 0 then added + [LayoutEntry(slotIndex, SequenceSpan(i, front.numberOfSamples, false))]
                        else added
      ensures currentLayouts[streamIndex].Value() == Appended(layout, added')
    {
      added' := added;
      if i > 0 && samplePosition == 0 {
        var entry := LayoutEntry(slotIndex, SequenceSpan(i, front.numberOfSamples, false));
        currentLayouts[streamIndex].AddSequence(entry);
        assert layout.entries + added + [entry] == layout.entries + (added + [entry]);
        added' := added + [entry];
      }
    }

    /** The copy of one sample in PackSequence's loop: sample `sample` of `data`, the
        window's sample `row`, goes to time step `row` of the slot, at row * stride +
        slotIndex * sampleSize with stride = P * sampleSize, by the copier of the stream's
        storage type. */
    method PackSample(streamIndex: nat, slotIndex: nat, row: nat, stream: StreamDescription, data: SequenceData, sample: nat,
                      ghost bytes: seq<bv8>, ghost window: seq<SampleRef>)
      requires streamIndex < |streamBuffers| && slotIndex < parallelNumberOfSequences
      requires row < |window| <= truncationSize && window[row] == SampleRef(data, sample)
      requires IsFloatingPoint(stream.elementType) && Fits(data, stream)
      requires |bytes| == streamBuffers[streamIndex].Length == parallelNumberOfSequences * truncationSize * GetSampleSize(stream)
      requires RefsCopyable(window, ElementSize(stream.elementType), GetSampleSize(stream))
      requires streamBuffers[streamIndex][..] == PackedSlot(bytes, slotIndex, window[..row], parallelNumberOfSequences,
                                                             truncationSize, ElementSize(stream.elementType), GetSampleSize(stream))
      modifies streamBuffers[streamIndex]
      ensures streamBuffers[streamIndex][..] == PackedSlot(bytes, slotIndex, window[..row + 1], parallelNumberOfSequences,
                                                            truncationSize, ElementSize(stream.elementType), GetSampleSize(stream))
    {
      var sampleSize := GetSampleSize(stream);
      var elementSize := ElementSize(stream.elementType);
      ghost var current := streamBuffers[streamIndex][..];
      PackedSlotNext(bytes, slotIndex, window, parallelNumberOfSequences, truncationSize, elementSize, sampleSize, row);
      SampleOffsetIsStrided(row, slotIndex, parallelNumberOfSequences, sampleSize);
      var stride := parallelNumberOfSequences * sampleSize;
      var offset: nat := stride * row + slotIndex * sampleSize;
      assert offset == SampleOffset(row, slotIndex, parallelNumberOfSequences, sampleSize);
      assert CopyableSample(data, sample, elementSize, sampleSize) && offset + sampleSize <= |current|;
      if stream.storageType == Dense {
        PackDenseSample(streamBuffers[streamIndex], offset, data, sample, elementSize, sampleSize);
      } else {
        PackSparseSample(streamBuffers[streamIndex], offset, data, sample, elementSize, sampleSize);
      }
      PackedSlotNextFrom(bytes, current, streamBuffers[streamIndex][..], slotIndex, window, parallelNumberOfSequences,
                         truncationSize, elementSize, sampleSize, row, offset);
    }
  }

  /** What packing sample i of a lane relies on: the sample under the cursor is the
      window's i-th, and it fits the stream. */
  lemma LaneStep(lane: Lane, stream: StreamDescription, i: nat)
    requires Positioned(lane) && IsFloatingPoint(stream.elementType) && i < Buffered(lane)
    requires forall j :: 0 <= j < |lane.queue| ==> Fits(lane.queue[j], stream)
    ensures var now := Consume(lane, i);
            && now.queue != []
            && Pending(lane)[i] == SampleRef(now.queue[0], now.position)
            && Fits(now.queue[0], stream)
            && CopyableSample(now.queue[0], now.position, ElementSize(stream.elementType), GetSampleSize(stream))
  {
    ConsumePending(lane, i);
    ConsumeDrops(lane, i);
    var now := Consume(lane, i);
    var d := |lane.queue| - |now.queue|;
    assert now.queue[0] == lane.queue[d];
    FitsCopyable(now.queue[0], stream, now.position);
  }

  /** The records of a window grow by one exactly when packing sample i (i >= 1) starts a
      new sequence: that sequence begins i samples into the window. */
  lemma SpansStep(slot: nat, lane: Lane, i: nat, added: seq<LayoutEntry>)
    requires Positioned(lane) && i < Buffered(lane)
    requires added == SequenceSpans(slot, lane.queue, lane.position, Touched(lane, Max(i, 1)))
    ensures Consume(lane, i).queue != []
    ensures var now := Consume(lane, i);
            SequenceSpans(slot, lane.queue, lane.position, Touched(lane, i + 1))
            == if i > 0 && now.position == 0 then added + [LayoutEntry(slot, SequenceSpan(i, now.queue[0].numberOfSamples, false))]
               else added
  {
    EmptyIffNothingBuffered(Consume(lane, i));
    if i == 0 {
      TouchedFirst(lane);
    } else {
      TouchedStep(lane, i);
    }
  }

  /** One iteration of PackSequence's loop, seen from the cursor (queue, position) it has
      reached after i samples: the sample under it is the window's i-th and fits the
      stream, the loop's cursor update is one Step, and the records grow as SpansStep says. */
  lemma WindowStep(slot: nat, stream: StreamDescription, lane: Lane, i: nat, queue: seq<SequenceData>, position: nat, added: seq<LayoutEntry>)
    requires Positioned(lane) && IsFloatingPoint(stream.elementType) && i < Buffered(lane)
    requires forall j :: 0 <= j < |lane.queue| ==> Fits(lane.queue[j], stream)
    requires Lane(queue, position) == Consume(lane, i)
    requires added == SequenceSpans(slot, lane.queue, lane.position, Touched(lane, Max(i, 1)))
    ensures queue != [] && position < queue[0].numberOfSamples
    ensures Pending(lane)[i] == SampleRef(queue[0], position) && Fits(queue[0], stream)
    ensures Consume(lane, i + 1) == Step(Lane(queue, position))
    ensures SequenceSpans(slot, lane.queue, lane.position, Touched(lane, i + 1))
            == if i > 0 && position == 0 then added + [LayoutEntry(slot, SequenceSpan(i, queue[0].numberOfSamples, false))]
               else added
  {
    LaneStep(lane, stream, i);
    SpansStep(slot, lane, i, added);
  }

  /** PackSequence on slot `slot` of a valid buffer with n >= 1 samples to pack, seen
      from the slot's lane: the window is the lane's first n pending samples, its records
      are the spans of the sequences it touches closed by a gap record when n < T, and
      the buffer it leaves is the lane consumed by n. */
  lemma LaneWindow(buffer: SequenceBuffer, parallel: nat, stream: StreamDescription, slot: nat, timeSteps: nat, n: nat, bytes: seq<bv8>)
    requires BufferValid(buffer, parallel, stream) && IsFloatingPoint(stream.elementType) && slot < parallel
    requires |bytes| == parallel * timeSteps * GetSampleSize(stream)
    requires n == Min(timeSteps, buffer.preparedSequenceLength[slot]) >= 1
    ensures var lane := LaneOf(buffer, slot);
            && Positioned(lane) && Counted(buffer, slot)
            && (forall j :: 0 <= j < |lane.queue| ==> Fits(lane.queue[j], stream))
            && n <= Buffered(lane) && n == WindowSize(buffer, slot, timeSteps)
            && RefsCopyable(Pending(lane), ElementSize(stream.elementType), GetSampleSize(stream))
            && n <= timeSteps && RefsCopyable(Pending(lane)[..n], ElementSize(stream.elementType), GetSampleSize(stream))
    ensures var lane := LaneOf(buffer, slot);
            var r := WindowPacked(buffer, parallel, stream, slot, timeSteps, bytes);
            && r.buffer == ConsumeSlot(buffer, slot, timeSteps)
            && r.entries == SequenceSpans(slot, lane.queue, lane.position, Touched(lane, n))
                            + (if n < timeSteps then [LayoutEntry(slot, GapSpan(n, timeSteps - n))] else [])
            && r.bytes == PackedSlot(bytes, slot, Pending(lane)[..n], parallel, timeSteps,
                                     ElementSize(stream.elementType), GetSampleSize(stream))
  {
    assert SlotValid(buffer, slot, stream);
    ValidCopyable(buffer, parallel, stream);
    var lane := LaneOf(buffer, slot);
    assert RefsCopyable(Pending(lane), ElementSize(stream.elementType), GetSampleSize(stream));
    SlotLayoutOpen(buffer, parallel, slot, timeSteps, n);
  }

  /** What PackSequence's loop needs of slot `slot` of a valid buffer with n >= 1 samples
      to pack: a positioned lane of fitting sequences holding at least n copyable samples. */
  lemma LaneReady(buffer: SequenceBuffer, parallel: nat, stream: StreamDescription, slot: nat, timeSteps: nat, n: nat)
    requires BufferValid(buffer, parallel, stream) && IsFloatingPoint(stream.elementType) && slot < parallel
    requires n == Min(timeSteps, buffer.preparedSequenceLength[slot]) >= 1
    ensures var lane := LaneOf(buffer, slot);
            && Positioned(lane) && Counted(buffer, slot)
            && (forall j :: 0 <= j < |lane.queue| ==> Fits(lane.queue[j], stream))
            && n <= Buffered(lane) && n == WindowSize(buffer, slot, timeSteps)
            && RefsCopyable(Pending(lane), ElementSize(stream.elementType), GetSampleSize(stream))
  {
    assert SlotValid(buffer, slot, stream);
    ValidCopyable(buffer, parallel, stream);
  }

  /** What PackSequence's loop and its gap record leave for slot `slot` of a valid buffer
      with n >= 1 samples to pack: the slot's cursor consumed by n samples, the window's
      samples copied into time steps 0..n-1 of `bytes`, and the window's records appended. */
  ghost predicate LaneWindowDone(buffer: SequenceBuffer, parallel: nat, stream: StreamDescription, slot: nat, timeSteps: nat, n: nat,
                                 bytes: seq<bv8>, queue: seq<SequenceData>, position: nat, after: seq<bv8>, layout: MBLayout, layoutAfter: MBLayout)
    requires BufferValid(buffer, parallel, stream) && IsFloatingPoint(stream.elementType) && slot < parallel
    requires |bytes| == parallel * timeSteps * GetSampleSize(stream)
    requires n == Min(timeSteps, buffer.preparedSequenceLength[slot]) >= 1
  {
    LaneReady(buffer, parallel, stream, slot, timeSteps, n);
    var lane := LaneOf(buffer, slot);
    && Lane(queue, position) == Consume(lane, n)
    && after == PackedSlot(bytes, slot, Pending(lane)[..n], parallel, timeSteps, ElementSize(stream.elementType), GetSampleSize(stream))
    && layoutAfter == Appended(layout, SequenceSpans(slot, lane.queue, lane.position, Touched(lane, n))
                                       + if n < timeSteps then [LayoutEntry(slot, GapSpan(n, timeSteps - n))] else [])
  }

  /** PackLane's end state: the cursor the loop ends on written back with the count
      lowered by n, the bytes and the records it leaves are what WindowPacked describes. */
  lemma LaneWindowEnds(buffer: SequenceBuffer, parallel: nat, stream: StreamDescription, slot: nat, timeSteps: nat, n: nat, bytes: seq<bv8>,
                       queue: seq<SequenceData>, position: nat, packed: SequenceBuffer, after: seq<bv8>, layout: MBLayout, layoutAfter: MBLayout)
    requires BufferValid(buffer, parallel, stream) && IsFloatingPoint(stream.elementType) && slot < parallel
    requires |bytes| == parallel * timeSteps * GetSampleSize(stream)
    requires n == Min(timeSteps, buffer.preparedSequenceLength[slot]) >= 1
    requires LaneWindowDone(buffer, parallel, stream, slot, timeSteps, n, bytes, queue, position, after, layout, layoutAfter)
    requires packed == SequenceBuffer(buffer.preparedSequences[slot := queue],
                                      buffer.preparedSequenceLength[slot := buffer.preparedSequenceLength[slot] - n],
                                      buffer.sequenceSamplePosition[slot := position])
    ensures var r := WindowPacked(buffer, parallel, stream, slot, timeSteps, bytes);
            packed == r.buffer && layoutAfter == Appended(layout, r.entries) && after == r.bytes
  {
    LaneWindow(buffer, parallel, stream, slot, timeSteps, n, bytes);
    LaneReady(buffer, parallel, stream, slot, timeSteps, n);
    ConsumeSlotFrom(buffer, slot, timeSteps, n, queue, position, packed);
  }

  /** Where PackSequence's loop stands after i samples of the window: the cursor consumed
      i samples, the records are those of the sequences touched so far, and the slot's rows
      0 .. i - 1 hold the window's first i samples. */
  ghost predicate SamplesPacked(slot: nat, stream: StreamDescription, parallel: nat, timeSteps: nat, lane: Lane,
                                layout: MBLayout, bytes: seq<bv8>, window: seq<SampleRef>, i: nat,
                                queue: seq<SequenceData>, position: nat, added: seq<LayoutEntry>,
                                layoutNow: MBLayout, now: seq<bv8>)
  {
    && Positioned(lane) && 1 <= |window| <= Buffered(lane) && i <= |window| <= timeSteps && slot < parallel
    && IsFloatingPoint(stream.elementType) && |bytes| == parallel * timeSteps * GetSampleSize(stream)
    && RefsCopyable(window, ElementSize(stream.elementType), GetSampleSize(stream))
    && Lane(queue, position) == Consume(lane, i)
    && added == SequenceSpans(slot, lane.queue, lane.position, Touched(lane, Max(i, 1)))
    && layoutNow == Appended(layout, added)
    && now == PackedSlot(bytes, slot, window[..i], parallel, timeSteps, ElementSize(stream.elementType), GetSampleSize(stream))
  }

  /** SamplesPacked after sample i is packed: the cursor, the records and the slot's rows
      each moved on by one sample. */
  lemma SamplesAdvance(slot: nat, stream: StreamDescription, parallel: nat, timeSteps: nat, lane: Lane,
                       layout: MBLayout, bytes: seq<bv8>, window: seq<SampleRef>, i: nat,
                       queue: seq<SequenceData>, position: nat, added: seq<LayoutEntry>,
                       layoutNow: MBLayout, now: seq<bv8>)
    requires Positioned(lane) && 1 <= |window| <= Buffered(lane) && i < |window| <= timeSteps && slot < parallel
    requires IsFloatingPoint(stream.elementType) && |bytes| == parallel * timeSteps * GetSampleSize(stream)
    requires RefsCopyable(window, ElementSize(stream.elementType), GetSampleSize(stream))
    requires Lane(queue, position) == Consume(lane, i + 1)
    requires added == SequenceSpans(slot, lane.queue, lane.position, Touched(lane, i + 1))
    requires layoutNow == Appended(layout, added)
    requires RefsCopyable(window[..i + 1], ElementSize(stream.elementType), GetSampleSize(stream))
    requires now == PackedSlot(bytes, slot, window[..i + 1], parallel, timeSteps, ElementSize(stream.elementType), GetSampleSize(stream))
    ensures SamplesPacked(slot, stream, parallel, timeSteps, lane, layout, bytes, window, i + 1, queue, position, added, layoutNow, now)
  {
  }

  /** Before PackSequence's loop: nothing is packed yet, and the record of the front
      sequence, which begins the cursor's count of samples before the window, is the
      window's first record. */
  lemma WindowOpens(slot: nat, lane: Lane, bytes: seq<bv8>, window: seq<SampleRef>, parallel: nat, timeSteps: nat, elementSize: nat, sampleSize: nat)
    requires Positioned(lane) && 1 <= Buffered(lane)
    requires slot < parallel && |window| <= timeSteps && |bytes| == parallel * timeSteps * sampleSize
    ensures lane.queue != [] && Consume(lane, 0) == lane
    ensures SequenceSpans(slot, lane.queue, lane.position, Touched(lane, Max(0, 1)))
            == [LayoutEntry(slot, SequenceSpan(-(lane.position as int), lane.queue[0].numberOfSamples, lane.position > 0))]
    ensures RefsCopyable(window[..0], elementSize, sampleSize)
    ensures PackedSlot(bytes, slot, window[..0], parallel, timeSteps, elementSize, sampleSize) == bytes
  {
    EmptyIffNothingBuffered(lane);
    TouchedFirst(lane);
    assert lane.queue[..0] == [];
    assert window[..0] == [];
  }

  /** PackSequence(s, k) on the buffers of PackStream's loop after k slots: stream s is
      `b` with its first k slots packed and slot k topped up, so no refill happens and
      packing slot k is the next step of PackedBuffer, PackedLayout and SlotsPacked. */
  lemma NextSlotPacked(buffers: seq<SequenceBuffer>, parallel: nat, streams: seq<StreamDescription>, s: nat, k: nat, timeSteps: nat,
                       remaining: seq<seq<SequenceData>>, b: SequenceBuffer, bytes: seq<bv8>, middle: seq<bv8>)
    requires AllValid(buffers, parallel, streams) && s < |buffers| && k < parallel && BatchesFit(remaining, streams)
    requires BufferValid(b, parallel, streams[s]) && AllCounted(b, parallel) && IsFloatingPoint(streams[s].elementType)
    requires remaining == [] || timeSteps <= b.preparedSequenceLength[k]
    requires buffers[s] == PackedBuffer(b, parallel, k, timeSteps)
    requires |bytes| == parallel * timeSteps * GetSampleSize(streams[s]) && |middle| == |bytes|
    requires WindowsPacked(bytes, middle, b, streams[s], parallel, k, timeSteps)
    ensures var f := Prepared(buffers, parallel, streams, s, k, remaining, timeSteps);
            var r := WindowPacked(f.buffers[s], parallel, streams[s], k, timeSteps, middle);
            && f == Fill(buffers, remaining)
            && r.buffer == PackedBuffer(b, parallel, k + 1, timeSteps)
            && PackedLayout(b, parallel, k + 1, timeSteps) == PackedLayout(b, parallel, k, timeSteps) + r.entries
            && WindowsPacked(bytes, r.bytes, b, streams[s], parallel, k + 1, timeSteps)
  {
    var stream := streams[s];
    var current := buffers[s];
    assert BufferValid(current, parallel, stream);
    ValidCounted(current, parallel, stream);
    ValidCopyable(b, parallel, stream);
    PackedBufferStep(b, parallel, k, timeSteps);
    assert Prepared(buffers, parallel, streams, s, k, remaining, timeSteps) == Fill(buffers, remaining);
    assert SlotLayout(current, parallel, k, timeSteps) == SlotLayout(b, parallel, k, timeSteps);
    assert SlotWindow(current, parallel, k, timeSteps) == SlotWindow(b, parallel, k, timeSteps);
    PackedStep(bytes, middle, b, parallel, k, timeSteps, ElementSize(stream.elementType), GetSampleSize(stream));
  }

  /** Streams in step stay in step once every slot of each is packed. */
  lemma PackedAllInStep(topped: seq<SequenceBuffer>, after: seq<SequenceBuffer>, parallel: nat, timeSteps: nat, streams: seq<StreamDescription>)
    requires AllValid(topped, parallel, streams) && |topped| > 0 && InStep(topped, parallel) && |after| == |topped|
    requires forall t :: 0 <= t < |after| ==> AllCounted(topped[t], parallel) && after[t] == PackedBuffer(topped[t], parallel, parallel, timeSteps)
    ensures AllSized(after, parallel) && InStep(after, parallel)
  {
    forall t | 0 <= t < |after| ensures SlotsInStep(after[t], after[0], parallel) {
      assert SlotsInStep(topped[t], topped[0], parallel);
      PackedBufferInStep(topped[t], topped[0], parallel, parallel, timeSteps);
    }
  }

  /** PackStream's loop before any slot: nothing packed, no record, bytes unchanged. */
  lemma NoSlotPacked(b: SequenceBuffer, parallel: nat, stream: StreamDescription, timeSteps: nat, bytes: seq<bv8>)
    requires BufferValid(b, parallel, stream) && IsFloatingPoint(stream.elementType)
    requires |bytes| == parallel * timeSteps * GetSampleSize(stream)
    ensures AllCounted(b, parallel)
    ensures PackedBuffer(b, parallel, 0, timeSteps) == b
    ensures PackedLayout(b, parallel, 0, timeSteps) == []
    ensures WindowsPacked(bytes, bytes, b, stream, parallel, 0, timeSteps)
  {
    ValidCopyable(b, parallel, stream);
    PackedBufferNone(b, parallel, timeSteps);
    PackedNone(bytes, b, parallel, timeSteps, ElementSize(stream.elementType), GetSampleSize(stream));
  }
}
