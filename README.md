# Truncated-BPTT packer and UCI to CNTK text converter, in Dafny

This project models two pieces of the CNTK readers and proves properties about them.

**The BPTT packer** (`BpttPacker.cpp`) cuts sequences into windows for truncated
back-propagation through time.
- It keeps P = minibatchSize / T parallel slots per stream, where T is the truncation size.
- Each slot holds a FIFO queue of prepared sequences, a buffered-sample count and a cursor
  into the front sequence.
- Each minibatch, every slot is first topped up with sequences fetched from the transformer,
  one sequence per stream per fetch.
- Then the slot's next n = min(T, buffered) samples are copied into the stream buffer, one
  time step per row. Row r of slot k sits at byte (r * P + k) * sampleSize.
- The packer records where each sequence lies in the minibatch layout:
  - the first record starts at minus the cursor, so it is negative when the window
    continues a sequence;
  - a record is added for every sequence that starts inside the window;
  - a trailing gap covers the T - n time steps left empty.

**The converter script** (`uci_to_cntk_text_format_converter.py`) rewrites UCI text lines.
- It derives the output file name by inserting `_cntk_text` before the input name's last
  `.`.
- It rewrites every whitespace-separated input line as one line of the form
  `|labels <dense one-hot labels>\t|features <feature tokens>\n`.

Modules:
- `BpttTypes`: stream descriptions, sequences, layout records, and the checks the packer's
  constructor asserts.
- `SampleCopy`: the dense and sparse sample copiers over byte arrays, and where a sample goes
  in a stream buffer.
- `LaneQueue`: one slot as a queue and a cursor, its pending samples in packing order, and
  the layout records of a window.
- `SequenceBuffers`: the per-stream SequenceBuffer, NothingToPack, and the refill done by
  GetSequencesToSlot and InitializePreparedSequences.
- `SlotImage` and `PackedWindow`: the bytes and records one packed window produces, slot by
  slot.
- `BpttPacking`: the transformer and the layout as classes, and the packer class with its
  constructor, ReadMinibatch, PackSequence and GetSequencesToSlot as methods over arrays.
  Each method is proved against the functions above.
- `AsWritten`: the packer code where it departs from the behaviour modelled elsewhere (see
  Findings).
- `UciToCntkText`: the converter in Python 2 semantics.
  - `str.split()` splits on ASCII whitespace.
  - `int()` takes an optional sign and decimal digits.
  - Slices clamp their bounds and negative list indices wrap.
  - The script is Python 2: its `print (...).format(...)` at lines 37-38 only works as a
    print statement.

The packer file is unfinished, and this model follows its evident intent. These are the
deviations from the code:
- The stride is P * GetSampleSize(stream), not 0.
- The cursor advances past each copied sample.
- The buffered count drops by every consumed sample.
- A sequence starting at time step i is recorded at i with its own sample count.
- Sparse values are read from the sample's first value.
- InitializePreparedSequences tops up every slot, and ReadMinibatch tops up before asking
  NothingToPack.
- The per-slot vectors have P entries. The code only `reserve`s them (lines 16-21), and
  never sizes `m_sequencePosition` or `m_sequenceSamplePosition`.
- `m_sequencePosition` is never written, so it is always 0. The model always packs from the
  front of the queue.
- A front sequence is popped as soon as the cursor reaches its end. The code pops it only
  when the next sample is asked for (lines 163-167), so a sequence that ends exactly at the
  end of a window stays queued. The next window then first records it again at minus its
  length (lines 154-158) before popping it, where the model adds no such record.
- The constructor pushes a size of 0 and a `nullptr` stream buffer per stream (lines 88-89).
  It never calls AllocateBuffer (lines 247-255), and nothing fills `m_currentLayouts`,
  though lines 115, 154, 170 and 192 use it. The model allocates one buffer of
  P * T * sampleSize bytes and one layout per stream, each distinct from the others.

Nothing in the packer zeroes a stream buffer, and PackSparseSample writes only the elements
a sample lists (lines 222-233). So from the second minibatch on, a sparse cell keeps the
non-zeros an earlier minibatch wrote there. The model keeps this behaviour:
SampleCopy.SparseImageUntouched states that every byte outside the listed elements keeps
its old value.

`BpttPacker.h`, `MBLayout`, `StreamDescription` and the transformer's implementation are not
part of this model.

## Model

| member | source | states |
|---|---|---|
| BpttTypes.ElementWithinSample | Source/Readers/ReaderLib/BpttPacker.cpp:240-245 | an element index below the stream's element count addresses bytes inside one sample (GetSampleSize = element count * element width) |
| SampleCopy.WriteAt | Source/Readers/ReaderLib/BpttPacker.cpp:228-231 | a memcpy: the bytes [at, at+len) are the copied bytes, every other byte is unchanged |
| SampleCopy.PackDenseSample | Source/Readers/ReaderLib/BpttPacker.cpp:235-238 | the destination's sampleSize bytes at the offset become the sequence's bytes [sample*sampleSize, (sample+1)*sampleSize); nothing else changes |
| SampleCopy.PackSparseSample | Source/Readers/ReaderLib/BpttPacker.cpp:222-233 | the destination's sample bytes at the offset become the sample's sparse image; nothing outside them changes |
| SampleCopy.CopyElement | Source/Readers/ReaderLib/BpttPacker.cpp:228-231 | one memcpy of value number v (elementSize bytes) to byte `at`, nothing else changed |
| SampleCopy.SparseImageUntouched | Source/Readers/ReaderLib/BpttPacker.cpp:222-233 | the sparse copy touches no byte outside the elements it lists |
| SampleCopy.SparseImageWritten | Source/Readers/ReaderLib/BpttPacker.cpp:226-231 | a listed element not listed again later holds its own value: value number (non-zeros of earlier samples + j) |
| SampleCopy.SparseImageLastWritten | Source/Readers/ReaderLib/BpttPacker.cpp:226-231 | the last listed element holds the last value |
| SampleCopy.FitsCopyable | Source/Readers/ReaderLib/BpttPacker.cpp:222-238 | every sample of a sequence that fits its stream can be copied into one sample's bytes |
| SampleCopy.SampleOffsetIsStrided | Source/Readers/ReaderLib/BpttPacker.cpp:145-146 | sample (row, slot) sits at stride * row + slot * sampleSize with stride = P * sampleSize |
| SampleCopy.SampleInBuffer | Source/Readers/ReaderLib/BpttPacker.cpp:178 | every time step of every slot lies inside the P * T * sampleSize stream buffer |
| SampleCopy.SamplesDisjoint | Source/Readers/ReaderLib/BpttPacker.cpp:178 | distinct (time step, slot) pairs occupy disjoint bytes |
| SampleCopy.AsWrittenOffsetsCollide | Source/Readers/ReaderLib/BpttPacker.cpp:145-146 | with sampleSize = 0 as written, every sample of every slot goes to byte 0 |
| SampleCopy.AsWrittenSparseCopiesWrongValue | Source/Readers/ReaderLib/BpttPacker.cpp:229-230 | a two-sample sparse sequence whose second sample, copied as written, receives the first sample's value |
| LaneQueue.EmptyIffNothingBuffered | Source/Readers/ReaderLib/BpttPacker.cpp:23-30 | a slot's queue is empty exactly when it has no sample left to pack |
| LaneQueue.Pending | Source/Readers/ReaderLib/BpttPacker.cpp:161-177 | the samples a slot still has to pack number exactly its buffered count, and are none exactly when the queue is empty |
| LaneQueue.Step | Source/Readers/ReaderLib/BpttPacker.cpp:163-167 | packing one sample keeps the cursor inside the front sequence and lowers the buffered count by one |
| LaneQueue.Advance | Source/Readers/ReaderLib/BpttPacker.cpp:163-167 | the cursor advance and the pop of a finished front sequence make one Step |
| LaneQueue.StepPending | Source/Readers/ReaderLib/BpttPacker.cpp:161-177 | a step packs the sample under the cursor and leaves the rest pending in the same order (FIFO) |
| LaneQueue.ConsumePending | Source/Readers/ReaderLib/BpttPacker.cpp:161-177 | after m samples, the pending samples are the original ones from m on, and sample m is the one under the cursor |
| LaneQueue.ConsumeDrops | Source/Readers/ReaderLib/BpttPacker.cpp:163-167 | sequences leave only from the front: the queue left is a suffix, and the samples of the dropped sequences plus the cursor equal the old cursor plus m |
| LaneQueue.WindowTiles | Source/Readers/ReaderLib/BpttPacker.cpp:161-175 | a window of n samples ends inside the last sequence it touches; a window that drains the slot touches every sequence |
| LaneQueue.SequenceSpansChain | Source/Readers/ReaderLib/BpttPacker.cpp:151-174 | the first record starts at minus the cursor and continues a sequence exactly when the cursor is past 0; every record ends where the next starts; later records start after 0 and continue nothing |
| LaneQueue.SequenceSpansCover | Source/Readers/ReaderLib/BpttPacker.cpp:151-174 | the sequence records cover min(T, samples up to the last touched sequence's end - cursor) time steps |
| LaneQueue.SlotSpansCover | Source/Readers/ReaderLib/BpttPacker.cpp:138-197 | a slot's records, sequences and gap, cover exactly n = min(T, buffered) time steps with samples |
| LaneQueue.ConsumeInStep | Source/Readers/ReaderLib/BpttPacker.cpp:106 | two slots holding sequences of the same lengths at the same cursor stay so after packing m samples |
| LaneQueue.SlotSpansInStep | Source/Readers/ReaderLib/BpttPacker.cpp:106 | such slots get the same layout records: the layout depends on sample counts only |
| SequenceBuffers.EmptyBuffer | Source/Readers/ReaderLib/BpttPacker.cpp:16-21 | a new SequenceBuffer has P slots |
| SequenceBuffers.EmptyValid | Source/Readers/ReaderLib/BpttPacker.cpp:88-92 | one empty buffer per stream is valid and the streams are in step |
| SequenceBuffers.NothingToPackIffNoSamples | Source/Readers/ReaderLib/BpttPacker.cpp:23-30 | NothingToPack holds exactly when every slot's buffered count is 0 |
| SequenceBuffers.PushSequenceValid | Source/Readers/ReaderLib/BpttPacker.cpp:216-217 | push_back keeps the slot valid and appends the sequence's samples, in order, to its pending samples |
| SequenceBuffers.PushBatchValid | Source/Readers/ReaderLib/BpttPacker.cpp:212-218 | appending one fitting sequence per stream keeps every stream valid and the streams in step |
| SequenceBuffers.PushBatchCount | Source/Readers/ReaderLib/BpttPacker.cpp:212-218 | the fetched sequence's samples are added to that slot's count and no other slot's |
| SequenceBuffers.RefillStops | Source/Readers/ReaderLib/BpttPacker.cpp:203-210 | after GetSequencesToSlot the first stream's slot holds at least T samples, or the epoch has ended |
| SequenceBuffers.RefillSatisfied | Source/Readers/ReaderLib/BpttPacker.cpp:203 | a slot already holding T samples fetches nothing |
| SequenceBuffers.RefillValid | Source/Readers/ReaderLib/BpttPacker.cpp:201-220 | refilling keeps every stream valid and in step, and takes the transformer's batches from the front |
| SequenceBuffers.RefillTakesFront | Source/Readers/ReaderLib/BpttPacker.cpp:206 | what the transformer has left after a refill is a suffix of what it had |
| SequenceBuffers.RefillGrows | Source/Readers/ReaderLib/BpttPacker.cpp:201-220 | refilling one slot never lowers any slot's count |
| SequenceBuffers.RefillFetches | Source/Readers/ReaderLib/BpttPacker.cpp:203-218 | refilling from a transformer that has a batch leaves a sample in the slot |
| SequenceBuffers.TopUpValid | Source/Readers/ReaderLib/BpttPacker.cpp:97-100 | topping up every slot keeps the buffers valid and in step |
| SequenceBuffers.TopUpStops | Source/Readers/ReaderLib/BpttPacker.cpp:201-210 | after the top-up every slot holds at least T samples, or the epoch has ended |
| SequenceBuffers.TopUpGrows | Source/Readers/ReaderLib/BpttPacker.cpp:201-220 | topping up further slots never lowers an earlier slot's count |
| SequenceBuffers.TopUpExhausted | Source/Readers/ReaderLib/BpttPacker.cpp:206-210 | an exhausted transformer tops up nothing |
| SequenceBuffers.TopUpEmptyIff | Source/Readers/ReaderLib/BpttPacker.cpp:97-111 | after the top-up, NothingToPack holds exactly when the transformer is exhausted and nothing was prepared before |
| PackedWindow.WindowSize | Source/Readers/ReaderLib/BpttPacker.cpp:138 | numberOfSamples is at most T and at most the buffered count, and equals one of them |
| PackedWindow.ConsumeSlotValid | Source/Readers/ReaderLib/BpttPacker.cpp:161-177 | packing a window keeps the buffer valid and leaves the slot's pending samples from n on |
| PackedWindow.PackedBufferStep | Source/Readers/ReaderLib/BpttPacker.cpp:116-119 | packing slot k sees slot k as topped up, and moves on to the buffer with slots 0..k packed |
| PackedWindow.PackedBufferSlot | Source/Readers/ReaderLib/BpttPacker.cpp:116-119 | once the first `slots` slots are packed, each of them has consumed its window and every later one is untouched |
| PackedWindow.SlotLayoutOpen | Source/Readers/ReaderLib/BpttPacker.cpp:151-197 | a slot's records are its sequence records followed by the gap record at n of length T - n when n < T |
| PackedWindow.SlotLayoutCovers | Source/Readers/ReaderLib/BpttPacker.cpp:138-197 | a slot's records cover exactly its window of n samples |
| PackedWindow.PackedLayoutCovers | Source/Readers/ReaderLib/BpttPacker.cpp:123 | the stream's records cover exactly the samples packed, which is what dataSize counts |
| PackedWindow.PackedSamplesBound | Source/Readers/ReaderLib/BpttPacker.cpp:113-123 | a minibatch holds at most P * T samples per stream |
| PackedWindow.PackedSamplesPositive | Source/Readers/ReaderLib/BpttPacker.cpp:107-123 | a buffer with a sample to pack yields a non-empty minibatch |
| PackedWindow.PackedLayoutInStep | Source/Readers/ReaderLib/BpttPacker.cpp:106 | streams in step get identical layouts |
| PackedWindow.PackedSamplesInStep | Source/Readers/ReaderLib/BpttPacker.cpp:106 | streams in step pack the same number of samples |
| PackedWindow.PackedBufferInStep | Source/Readers/ReaderLib/BpttPacker.cpp:106 | streams in step stay in step after packing |
| PackedWindow.PackedStep | Source/Readers/ReaderLib/BpttPacker.cpp:177-186 | packing one more slot's window into the bytes extends "every cell of the packed slots holds its sample, every other cell is as before" by that slot |
| PackedWindow.PackedUnique | Source/Readers/ReaderLib/BpttPacker.cpp:177-186 | the cell-by-cell description of the packed bytes determines them |
| SlotImage.CopyToRow | Source/Readers/ReaderLib/BpttPacker.cpp:177-186 | copying a sample into time step `row` of a slot writes the copied sample at its offset and keeps every byte outside that cell |
| SlotImage.PackedSlotUntouched | Source/Readers/ReaderLib/BpttPacker.cpp:161-187 | packing a slot's window keeps every byte outside the cells of its first n time steps |
| SlotImage.PackedSlotRow | Source/Readers/ReaderLib/BpttPacker.cpp:161-187 | time step i of the packed slot holds the copy of the window's sample i |
| SlotImage.PackedSlotKeepsOtherSlot | Source/Readers/ReaderLib/BpttPacker.cpp:178 | packing a slot leaves every cell of every other slot unchanged |
| SlotImage.PackedSlotKeepsLaterRow | Source/Readers/ReaderLib/BpttPacker.cpp:190-197 | the time steps after the window, the gap, keep their bytes |
| BpttPacking.Transformer.GetNextSequences | Source/Readers/ReaderLib/BpttPacker.cpp:206-210 | the next batch, removed from the front, or end of epoch exactly when none is left |
| BpttPacking.Layout.Init | Source/Readers/ReaderLib/BpttPacker.cpp:115 | the layout is reset to P slots, T time steps and no record |
| BpttPacking.Layout.AddSequence | Source/Readers/ReaderLib/BpttPacker.cpp:154-158 | one record appended; nothing else changes |
| BpttPacking.WindowPacked | Source/Readers/ReaderLib/BpttPacker.cpp:138-197 | packing one slot's window keeps the sequence buffer valid and the stream buffer's size |
| BpttPacking.BpttPacker.constructor | Source/Readers/ReaderLib/BpttPacker.cpp:53-95 | P = minibatchSize / T; one empty SequenceBuffer per stream, then every slot is topped up from the transformer; unlike lines 88-89, which push a `nullptr` buffer and no layout, one distinct buffer of P * T samples and one layout are allocated per stream |
| BpttPacking.BpttPacker.ReadMinibatch | Source/Readers/ReaderLib/BpttPacker.cpp:102-129 | after the top-up, end of epoch (no data, buffers untouched) exactly when the transformer was exhausted and nothing was prepared; otherwise one minibatch per stream, each StreamPacked: windows consumed, bytes packed, layout P x T with every slot's records in slot order, dataSize = packed samples * sampleSize |
| BpttPacking.BpttPacker.PackStreams | Source/Readers/ReaderLib/BpttPacker.cpp:113-126 | every stream is packed from its topped-up buffer, and the streams stay in step |
| BpttPacking.BpttPacker.PackStream | Source/Readers/ReaderLib/BpttPacker.cpp:115-125 | one stream packed as StreamPacked; the other streams' buffers are untouched |
| BpttPacking.BpttPacker.PackSlots | Source/Readers/ReaderLib/BpttPacker.cpp:116-119 | PackSequence on every slot in turn leaves PackedBuffer, PackedLayout and the packed bytes |
| BpttPacking.BpttPacker.InitializePreparedSequences | Source/Readers/ReaderLib/BpttPacker.cpp:97-100 | the buffers and the transformer become TopUp of the old ones |
| BpttPacking.BpttPacker.GetSequencesToSlot | Source/Readers/ReaderLib/BpttPacker.cpp:201-220 | the buffers and the transformer become Refill of the old ones for the slot; streams in step stay in step |
| BpttPacking.BpttPacker.PushToSlot | Source/Readers/ReaderLib/BpttPacker.cpp:212-218 | the batch is appended to the slot of every stream, with the counts raised |
| BpttPacking.BpttPacker.PackSequence | Source/Readers/ReaderLib/BpttPacker.cpp:131-198 | refill when the slot holds fewer than T samples, then the slot's window is consumed, its records appended and its samples copied, as WindowPacked |
| BpttPacking.BpttPacker.PackWindow | Source/Readers/ReaderLib/BpttPacker.cpp:138-197 | nothing happens when n = 0; otherwise the window is packed as WindowPacked |
| BpttPacking.BpttPacker.PackSamples | Source/Readers/ReaderLib/BpttPacker.cpp:151-187 | the lane ends consumed by n samples, the sequence records of the window are appended, and time steps 0..n-1 hold the slot's next n pending samples |
| BpttPacking.BpttPacker.RecordStart | Source/Readers/ReaderLib/BpttPacker.cpp:163-175 | a record (i, length) is appended exactly when a new sequence starts at time step i > 0 |
| BpttPacking.BpttPacker.PackSample | Source/Readers/ReaderLib/BpttPacker.cpp:177-186 | the dense or sparse copier extends the packed prefix by sample `row` |
| BpttPacking.BpttPacker.CloseWindow | Source/Readers/ReaderLib/BpttPacker.cpp:189-197 | a gap record at n of length T - n is appended exactly when n < T |
| BpttPacking.SpansStep | Source/Readers/ReaderLib/BpttPacker.cpp:163-175 | the records of i + 1 samples are those of i plus a record (i, length of the new front) exactly when a sequence starts at time step i > 0 |
| BpttPacking.WindowOpens | Source/Readers/ReaderLib/BpttPacker.cpp:151-158 | the first record of a window is (-cursor, length of the front), continuing exactly when the cursor is past 0 |
| BpttPacking.LaneWindow | Source/Readers/ReaderLib/BpttPacker.cpp:138-197 | a window consumes the slot, adds its sequence records and the gap, and copies the slot's next n samples |
| BpttPacking.PackedAllInStep | Source/Readers/ReaderLib/BpttPacker.cpp:106 | streams in step before packing are in step after it |
| AsWritten.PackLaneAsWritten | Source/Readers/ReaderLib/BpttPacker.cpp:161-187 | as written, the loop leaves the lane unchanged and copies the same sample into every time step |
| AsWritten.SlotNeverDrainsAsWritten | Source/Readers/ReaderLib/BpttPacker.cpp:161-187 | as written, packing leaves the slot's queue, cursor and count unchanged |
| AsWritten.PackLaneRepeatsSampleAsWritten | Source/Readers/ReaderLib/BpttPacker.cpp:161-187 | a two-sample sequence packed as written gives sample 0 twice, where the pending samples are 0 and 1 |
| AsWritten.NewSequenceRecordPastWindowAsWritten | Source/Readers/ReaderLib/BpttPacker.cpp:170-174 | a sequence starting at time step 1 of a 3-step window is recorded as written at 3 with length 5, where it lies at 1 with length 2 |
| AsWritten.FirstReadEndsEpochAsWritten | Source/Readers/ReaderLib/BpttPacker.cpp:97-111 | as written, NothingToPack holds on the buffers the constructor leaves, so the first ReadMinibatch ends the epoch |
| UciToCntkText.LastDot | Source/Readers/CNTKTextFormatReader/uci_to_cntk_text_format_converter.py:32 | rfind: -1 exactly when there is no '.', else the index of a '.' with none after it |
| UciToCntkText.LastDotUnique | Source/Readers/CNTKTextFormatReader/uci_to_cntk_text_format_converter.py:32 | a '.' with no '.' after it is what rfind finds |
| UciToCntkText.OutputFile | Source/Readers/CNTKTextFormatReader/uci_to_cntk_text_format_converter.py:28-35 | the output file given, unless it is missing or empty, when it is the derived name |
| UciToCntkText.DefaultOutputNameInserts | Source/Readers/CNTKTextFormatReader/uci_to_cntk_text_format_converter.py:31-35 | with no '.', the suffix is appended; otherwise it is inserted right before the last '.', with the text before and after unchanged |
| UciToCntkText.DefaultOutputNameRoundTrip | Source/Readers/CNTKTextFormatReader/uci_to_cntk_text_format_converter.py:35 | removing the suffix from the derived name gives the input name back |
| UciToCntkText.DefaultOutputNameKeepsExtension | Source/Readers/CNTKTextFormatReader/uci_to_cntk_text_format_converter.py:31-35 | the derived name has a '.' exactly when the input has one, and the same extension from its last '.' |
| UciToCntkText.Split | Source/Readers/CNTKTextFormatReader/uci_to_cntk_text_format_converter.py:44 | split() yields non-empty tokens without whitespace |
| UciToCntkText.SplitAtSpace | Source/Readers/CNTKTextFormatReader/uci_to_cntk_text_format_converter.py:44 | a whitespace character separates: the tokens of x c y are those of x followed by those of y |
| UciToCntkText.SplitJoin | Source/Readers/CNTKTextFormatReader/uci_to_cntk_text_format_converter.py:49-52 | " ".join of tokens, split again, gives the tokens back |
| UciToCntkText.SliceFrom | Source/Readers/CNTKTextFormatReader/uci_to_cntk_text_format_converter.py:45 | a slice [start, start + dim) takes dim tokens from start, or as many as the line has: a short line is cut silently |
| UciToCntkText.Position | Source/Readers/CNTKTextFormatReader/uci_to_cntk_text_format_converter.py:48 | a list index in range: a non-negative one is itself, a negative one counts from the end |
| UciToCntkText.ParseLiteral | Source/Readers/CNTKTextFormatReader/uci_to_cntk_text_format_converter.py:48 | int() reads every integer's decimal literal back |
| UciToCntkText.DenseOfAccepts | Source/Readers/CNTKTextFormatReader/uci_to_cntk_text_format_converter.py:46-48 | the dense labels are built exactly when every label parses and indexes the list; otherwise the first bad label's ValueError or IndexError is raised |
| UciToCntkText.DenseOfMarks | Source/Readers/CNTKTextFormatReader/uci_to_cntk_text_format_converter.py:46-48 | the dense list has num_labels entries, '1' exactly at the positions the labels name and '0' everywhere else |
| UciToCntkText.MarkedSplit | Source/Readers/CNTKTextFormatReader/uci_to_cntk_text_format_converter.py:47-48 | the positions marked by the labels are those marked by all but the last, plus the last one's |
| UciToCntkText.RepeatedLabel | Source/Readers/CNTKTextFormatReader/uci_to_cntk_text_format_converter.py:47-48 | listing a label again changes nothing |
| UciToCntkText.DenseLabelsAreWords | Source/Readers/CNTKTextFormatReader/uci_to_cntk_text_format_converter.py:46-48 | every dense label is "0" or "1" |
| UciToCntkText.DenseLabels | Source/Readers/CNTKTextFormatReader/uci_to_cntk_text_format_converter.py:46-48 | the in-place loop over the labels computes DenseOf, faults included |
| UciToCntkText.ConvertLine | Source/Readers/CNTKTextFormatReader/uci_to_cntk_text_format_converter.py:43-53 | a line raises exactly when its labels raise |
| UciToCntkText.ConvertLineIsOneLine | Source/Readers/CNTKTextFormatReader/uci_to_cntk_text_format_converter.py:49-53 | an output line ends with its only newline |
| UciToCntkText.ConvertLineTokens | Source/Readers/CNTKTextFormatReader/uci_to_cntk_text_format_converter.py:44-53 | the output line's tokens are "\|labels", the dense labels, "\|features" and the feature tokens, in order |
| UciToCntkText.ConvertLines | Source/Readers/CNTKTextFormatReader/uci_to_cntk_text_format_converter.py:43-53 | one output line per input line, in order, until the first line that raises; that line's fault ends the run |

## Left out

- BpttPacking.BpttPacker.constructor: requires T >= 1, P = minibatchSize / T >= 1 and at least one stream. The code asserts only minibatchSize > 0 (line 76). With T = 0, line 64 divides by zero. With P = 0 there is no slot, so every ReadMinibatch ends the epoch.
- BpttPacking.Transformer.GetNextSequences: every fetched sequence must have at least one sample (`Fits`). As written, an empty sequence followed by another would be read past its end.
- BpttPacking.Transformer.GetNextSequences: every batch holds sequences of one sample count across the streams (`BatchFits`, and `Aligned` on ReadMinibatch). The code only expects this, in the comment at line 106, and never checks it. With unequal counts it refills on the packed stream's own count (line 133) but loops on stream 0's count (line 203), so the streams would pack different numbers of samples.
- LaneQueue.Step: pops a finished front sequence eagerly, so the model adds no record for a front sequence the previous window already finished. With the code's lazy pop such a sequence stays queued with no sample left, NothingToPack stays false at zero buffered samples, and an exhausted transformer never ends the epoch. The facts that NothingToPack holds exactly at zero buffered samples (LaneQueue.EmptyIffNothingBuffered, SequenceBuffers.NothingToPackIffNoSamples, SequenceBuffers.TopUpEmptyIff) hold only because of the eager pop.
- AllocateBuffer and the memory provider (lines 247-255): the code never calls AllocateBuffer, and the model does not model the memory provider behind it. The constructor instead allocates each stream buffer as a new array of P * T * sampleSize bytes and each layout as a new object. The list of differences before "## Model" records this.
- The transformer's internals, `MBLayout` and `StreamDescription` are not part of this model. The transformer is a list of batches, one sequence per stream each, consumed from the front. The layout is the list of its records.
- `shared_ptr` reference counting: sequences are immutable values.
- Sample contents are opaque bytes. No floating-point arithmetic is modelled.
- `assert(s.m_data[i].size() == 1)` (line 215) becomes the requirement that every batch holds one sequence per stream.
- Span records keep the sequence or gap length as their last field. MBLayout's own interpretation of `AddSequence` is not shown.
- The converter's argparse, `open`/`readlines`/`write`/`close` and `print` (lines 1-29, 37-41, 55-56) are I/O. A file is the list of its lines, and the output is the list of lines written.
- UciToCntkText.ParseInt: Python 2 `int()` also accepts surrounding whitespace, which split tokens never carry. It is not modelled.
- UciToCntkText.IsSpace: split() is modelled on the six ASCII whitespace characters of Python 2 byte strings.

## Findings

| source | as written | input that shows it | evidently intended | confidence | as-written member | corrected member |
|---|---|---|---|---|---|---|
| Source/Readers/ReaderLib/BpttPacker.cpp:145-146 | `sampleSize` is 0, so the stride and every destination offset are 0; PackDenseSample also gets `sampleSize` = 0 (line 181), so its memcpy (line 237) copies 0 bytes and no dense sample is copied at all | any two cells, e.g. time step 1 of slot 1 with P = 2 | sampleSize = GetSampleSize(stream), stride = P * sampleSize, cells disjoint | not executed | SampleCopy.AsWrittenOffsetsCollide | SampleCopy.SamplesDisjoint |
| Source/Readers/ReaderLib/BpttPacker.cpp:161-187 | `samplePosition` is never advanced, so every time step gets the same sample | one sequence of two samples, T = 2 | the cursor moves past each copied sample | not executed | AsWritten.PackLaneRepeatsSampleAsWritten | LaneQueue.StepPending |
| Source/Readers/ReaderLib/BpttPacker.cpp:167 | `pop_front` without lowering `m_preparedSequenceLength`, and no cursor advance, so a slot never drains | any slot with a sequence | the count drops by every consumed sample | not executed | AsWritten.SlotNeverDrainsAsWritten | PackedWindow.ConsumeSlotValid |
| Source/Readers/ReaderLib/BpttPacker.cpp:170-174 | a new sequence is recorded at `numberOfSamples` (where it starts at i) with last argument `numberOfSamples` + its sample count; that this last argument is wrong holds only if it is read as a length, as this model reads it (see "## Left out"); if it is an end, it is right for that begin, and lines 154-158 and 192-196 are the inconsistent ones | a window of 3 over sequences of 1 and 2 samples | the record (i, sample count) at the time step where it starts | not executed | AsWritten.NewSequenceRecordPastWindowAsWritten | BpttPacking.SpansStep |
| Source/Readers/ReaderLib/BpttPacker.cpp:229-230 | sparse values are read from the start of `m_data` whatever the sample | a sparse sequence of two samples with values 1 and 2 at index 0 | values read from the sample's first non-zero onwards | not executed | SampleCopy.AsWrittenSparseCopiesWrongValue | SampleCopy.SparseImageWritten |
| Source/Readers/ReaderLib/BpttPacker.cpp:97-111 | InitializePreparedSequences is empty and NothingToPack is checked before any refill, so the first read ends the epoch | a transformer holding any batch | top up every slot, then check NothingToPack | not executed | AsWritten.FirstReadEndsEpochAsWritten | SequenceBuffers.TopUpEmptyIff |
