/** One slot of one stream of the packer: a FIFO queue of prepared sequences and a cursor
    on the sample of the front sequence that is packed next (m_preparedSequences[slot] and
    m_sequenceSamplePosition[slot] of BpttPacker.cpp), with the layout records a packed
    window of that slot produces. */
module LaneQueue {
  import opened BpttTypes

  /** Sample number `sample` of `sequence`: what one time step of a slot receives. */
  datatype SampleRef = SampleRef(sequence: SequenceData, sample: nat)

  /** A slot's prepared sequences, front first, and the cursor into the front one. */
  datatype Lane = Lane(queue: seq<SequenceData>, position: nat)

  function Samples(sequence: SequenceData): (r: seq<SampleRef>)
    ensures |r| == sequence.numberOfSamples
    ensures forall i :: 0 <= i < |r| ==> r[i] == SampleRef(sequence, i)
  {
    seq(sequence.numberOfSamples, i requires 0 <= i => SampleRef(sequence, i))
  }

  /** Samples held by a queue of sequences. */
  function TotalCount(queue: seq<SequenceData>): nat {
    if queue == [] then 0 else TotalCount(queue[..|queue| - 1]) + queue[|queue| - 1].numberOfSamples
  }

  /** Every sample of every queued sequence, in queue order. */
  function AllRefs(queue: seq<SequenceData>): (r: seq<SampleRef>)
    ensures |r| == TotalCount(queue)
  {
    if queue == [] then [] else AllRefs(queue[..|queue| - 1]) + Samples(queue[|queue| - 1])
  }

  lemma {:induction false} AllRefsAppend(a: seq<SequenceData>, b: seq<SequenceData>)
    ensures AllRefs(a + b) == AllRefs(a) + AllRefs(b)
    decreases |b|
  {
    if b == [] {
      assert a + b == a;
    } else {
      var b' := b[..|b| - 1];
      var last := b[|b| - 1];
      assert (a + b)[..|a + b| - 1] == a + b';
      assert (a + b)[|a + b| - 1] == last;
      assert AllRefs(a + b) == AllRefs(a + b') + Samples(last);
      AllRefsAppend(a, b');
      assert AllRefs(b) == AllRefs(b') + Samples(last);
    }
  }

  /** Every listed sample is a sample of one of the queued sequences. */
  lemma {:induction false} AllRefsAt(queue: seq<SequenceData>, i: nat)
    requires i < TotalCount(queue)
    ensures AllRefs(queue)[i].sequence in queue
    ensures AllRefs(queue)[i].sample < AllRefs(queue)[i].sequence.numberOfSamples
    decreases |queue|
  {
    var last := |queue| - 1;
    if i < TotalCount(queue[..last]) {
      AllRefsAt(queue[..last], i);
      assert AllRefs(queue)[i] == AllRefs(queue[..last])[i];
    } else {
      assert AllRefs(queue)[i] == Samples(queue[last])[i - TotalCount(queue[..last])];
    }
  }

  /** The samples of a non-empty queue are those of its front followed by the rest. */
  lemma AllRefsFront(queue: seq<SequenceData>)
    requires queue != []
    ensures AllRefs(queue) == Samples(queue[0]) + AllRefs(queue[1..])
  {
    assert queue == [queue[0]] + queue[1..];
    AllRefsAppend([queue[0]], queue[1..]);
    assert [queue[0]][..0] == [];
  }

  /** The cursor invariant of a slot: every queued sequence has a sample, and the cursor
      points at a sample of the front sequence (and is 0 when the queue is empty). */
  predicate Positioned(lane: Lane) {
    && (forall j :: 0 <= j < |lane.queue| ==> lane.queue[j].numberOfSamples >= 1)
    && if lane.queue == [] then lane.position == 0 else lane.position < lane.queue[0].numberOfSamples
  }

  /** Samples of a slot not packed yet: what m_preparedSequenceLength counts. */
  function Buffered(lane: Lane): int {
    TotalCount(lane.queue) - lane.position
  }

  lemma TotalCountFront(queue: seq<SequenceData>)
    requires queue != []
    ensures TotalCount(queue) == queue[0].numberOfSamples + TotalCount(queue[1..])
  {
    AllRefsFront(queue);
  }

  /** A slot's queue is empty exactly when it has no sample left to pack. */
  lemma EmptyIffNothingBuffered(lane: Lane)
    requires Positioned(lane)
    ensures Buffered(lane) >= 0
    ensures lane.queue == [] <==> Buffered(lane) == 0
  {
    if lane.queue != [] {
      TotalCountFront(lane.queue);
    }
  }

  /** The samples of a slot not packed yet, in the order they will be packed. */
  function Pending(lane: Lane): (r: seq<SampleRef>)
    requires Positioned(lane)
    ensures |r| == Buffered(lane)
    ensures lane.queue == [] <==> r == []
  {
    if lane.queue == [] then []
    else
      TotalCountFront(lane.queue);
      AllRefs(lane.queue)[lane.position..]
  }

  /** Packing one sample: the cursor advances, and a sequence whose last sample was packed
      leaves the queue with the cursor back at 0. */
  function Step(lane: Lane): (r: Lane)
    requires Positioned(lane) && lane.queue != []
    ensures Positioned(r)
    ensures Buffered(r) == Buffered(lane) - 1
  {
    TotalCountFront(lane.queue);
    if lane.position + 1 == lane.queue[0].numberOfSamples then Lane(lane.queue[1..], 0)
    else Lane(lane.queue, lane.position + 1)
  }

  /** The cursor update of PackSequence's loop after a sample was copied: the cursor
      moves on, and the front sequence leaves the queue once its last sample is packed.
      This is the statement sequence PackNextSample runs; Step is the same update as a
      function, for specifications and lemmas, and the ensures ties the two together. */
  method Advance(queue: seq<SequenceData>, position: nat) returns (queue': seq<SequenceData>, position': nat)
    requires Positioned(Lane(queue, position)) && queue != []
    ensures Lane(queue', position') == Step(Lane(queue, position))
  {
    queue', position' := queue, position + 1;
    if position' == queue[0].numberOfSamples {
      // The front sequence is fully packed: it leaves the slot.
      queue', position' := queue[1..], 0;
    }
  }

  /** A step packs the sample under the cursor and leaves the rest pending, in order. */
  lemma StepPending(lane: Lane)
    requires Positioned(lane) && lane.queue != []
    ensures Pending(lane)[0] == SampleRef(lane.queue[0], lane.position)
    ensures Pending(Step(lane)) == Pending(lane)[1..]
  {
    AllRefsFront(lane.queue);
  }

  /** The slot after m samples have been packed from it. */
  function Consume(lane: Lane, m: nat): (r: Lane)
    requires Positioned(lane) && m <= Buffered(lane)
    ensures Positioned(r)
    ensures Buffered(r) == Buffered(lane) - m
    decreases m
  {
    if m == 0 then lane
    else
      var before := Consume(lane, m - 1);
      Step(before)
  }

  /** Packing m samples packs the first m pending ones, in order, and leaves the rest; the
      next one to pack is the sample under the cursor. */
  lemma {:induction false} ConsumePending(lane: Lane, m: nat)
    requires Positioned(lane) && m <= Buffered(lane)
    ensures Pending(Consume(lane, m)) == Pending(lane)[m..]
    ensures m < Buffered(lane) ==>
              Consume(lane, m).queue != [] &&
              Pending(lane)[m] == SampleRef(Consume(lane, m).queue[0], Consume(lane, m).position)
    decreases m
  {
    if m > 0 {
      ConsumePending(lane, m - 1);
      StepPending(Consume(lane, m - 1));
    }
    var r := Consume(lane, m);
    if m < Buffered(lane) {
      StepPending(r);
    }
  }

  /** After m samples, the sequences popped are exactly the first d of the queue, and they
      and the cursor account for the m packed samples and the ones packed before. */
  lemma {:induction false} ConsumeDrops(lane: Lane, m: nat)
    requires Positioned(lane) && m <= Buffered(lane)
    ensures |Consume(lane, m).queue| <= |lane.queue|
    ensures Consume(lane, m).queue == lane.queue[|lane.queue| - |Consume(lane, m).queue|..]
    ensures TotalCount(lane.queue[..|lane.queue| - |Consume(lane, m).queue|]) + Consume(lane, m).position
         == lane.position + m
    decreases m
  {
    if m == 0 {
      assert lane.queue[..0] == [];
      assert lane.queue[0..] == lane.queue;
    } else {
      ConsumeDrops(lane, m - 1);
      ConsumeDropsStep(lane, m);
    }
  }

  /** The step of ConsumeDrops from m - 1 samples to m. */
  lemma ConsumeDropsStep(lane: Lane, m: nat)
    requires Positioned(lane) && 1 <= m <= Buffered(lane)
    requires var p := Consume(lane, m - 1);
             && |p.queue| <= |lane.queue|
             && p.queue == lane.queue[|lane.queue| - |p.queue|..]
             && TotalCount(lane.queue[..|lane.queue| - |p.queue|]) + p.position == lane.position + m - 1
    ensures var r := Consume(lane, m);
            && |r.queue| <= |lane.queue|
            && r.queue == lane.queue[|lane.queue| - |r.queue|..]
            && TotalCount(lane.queue[..|lane.queue| - |r.queue|]) + r.position == lane.position + m
  {
    var p := Consume(lane, m - 1);
    EmptyIffNothingBuffered(p);
    assert Consume(lane, m) == Step(p);
    StepDrops(lane.queue, p);
  }

  /** One step keeps the queue a suffix of `queue` and advances the count of samples
      dropped from it, plus the cursor, by one. */
  lemma StepDrops(queue: seq<SequenceData>, lane: Lane)
    requires Positioned(lane) && lane.queue != []
    requires |lane.queue| <= |queue| && lane.queue == queue[|queue| - |lane.queue|..]
    ensures |Step(lane).queue| <= |queue| && Step(lane).queue == queue[|queue| - |Step(lane).queue|..]
    ensures TotalCount(queue[..|queue| - |Step(lane).queue|]) + Step(lane).position
         == TotalCount(queue[..|queue| - |lane.queue|]) + lane.position + 1
  {
    var d := |queue| - |lane.queue|;
    if lane.position + 1 == lane.queue[0].numberOfSamples {
      TotalCountPrefix(queue, d);
      assert queue[d] == lane.queue[0];
      assert queue[d + 1..] == lane.queue[1..];
    }
  }

  /** Number of queued sequences that a window of n packed samples touches: those popped
      while packing it, and the front one when packing stopped inside it. */
  function Touched(lane: Lane, n: nat): (r: nat)
    requires Positioned(lane) && 1 <= n <= Buffered(lane)
    ensures 1 <= r <= |lane.queue|
  {
    ConsumeDrops(lane, n);
    var after := Consume(lane, n);
    assert lane.queue[..0] == [];
    (|lane.queue| - |after.queue|) + if after.position > 0 then 1 else 0
  }

  /** The first packed sample always touches the front sequence, and nothing else. */
  lemma TouchedFirst(lane: Lane)
    requires Positioned(lane) && 1 <= Buffered(lane)
    ensures Touched(lane, 1) == 1
  {
    assert Consume(lane, 1) == Step(lane);
  }

  /** Packing one more sample touches one more sequence exactly when the cursor sits at
      the start of a sequence; that sequence is the next one of the queue, and it begins
      `i` samples into the window. */
  lemma TouchedStep(lane: Lane, i: nat)
    requires Positioned(lane) && 1 <= i < Buffered(lane)
    ensures Touched(lane, i + 1) == Touched(lane, i) + if Consume(lane, i).position == 0 then 1 else 0
    ensures Consume(lane, i).position == 0 ==>
              && Touched(lane, i) < |lane.queue|
              && Consume(lane, i).queue[0] == lane.queue[Touched(lane, i)]
              && TotalCount(lane.queue[..Touched(lane, i)]) == lane.position + i
  {
    ConsumeDrops(lane, i);
    assert Consume(lane, i + 1) == Step(Consume(lane, i));
  }

  /** The sequence records of a window: one per sequence among the first m of the queue,
      each placed where that sequence begins relative to the window (the window starts at
      the cursor), flagged when it began in an earlier window. */
  function SequenceSpans(slot: nat, queue: seq<SequenceData>, position: nat, m: nat): (r: seq<LayoutEntry>)
    requires m <= |queue|
    ensures |r| == m
  {
    if m == 0 then []
    else
      var start := TotalCount(queue[..m - 1]) - position;
      SequenceSpans(slot, queue, position, m - 1) + [LayoutEntry(slot, SequenceSpan(start, queue[m - 1].numberOfSamples, start < 0))]
  }

  /** The layout records PackSequence adds for a window of n samples over T time steps:
      nothing when n is 0, else one record per touched sequence and, when the slot ran dry
      before T, a gap over the rest of the window. */
  function SlotSpans(slot: nat, lane: Lane, n: nat, timeSteps: nat): seq<LayoutEntry>
    requires Positioned(lane) && n <= Buffered(lane) && n <= timeSteps
  {
    if n == 0 then []
    else SequenceSpans(slot, lane.queue, lane.position, Touched(lane, n))
         + if n < timeSteps then [LayoutEntry(slot, GapSpan(n, timeSteps - n))] else []
  }

  lemma TotalCountPrefix(queue: seq<SequenceData>, j: nat)
    requires j < |queue|
    ensures TotalCount(queue[..j + 1]) == TotalCount(queue[..j]) + queue[j].numberOfSamples
  {
    assert queue[..j + 1][..j] == queue[..j];
  }

  /** Where the window's sequences lie: the touched sequences follow each other without
      overlap or hole, the first begins at minus the cursor, the last begins inside the
      window and ends at or after its last packed sample, and exactly at it when the slot
      ran dry. */
  lemma {:induction false} WindowTiles(lane: Lane, n: nat)
    requires Positioned(lane) && 1 <= n <= Buffered(lane)
    ensures var m := Touched(lane, n);
            && TotalCount(lane.queue[..m - 1]) < lane.position + n <= TotalCount(lane.queue[..m])
            && (n == Buffered(lane) ==> m == |lane.queue| && TotalCount(lane.queue) == lane.position + n)
  {
    ConsumeDrops(lane, n);
    var after := Consume(lane, n);
    var d := |lane.queue| - |after.queue|;
    var m := Touched(lane, n);
    if after.position > 0 {
      TotalCountPrefix(lane.queue, d);
      assert lane.queue[d] == after.queue[0];
    } else {
      TotalCountPrefix(lane.queue, d - 1);
      assert lane.queue[d - 1].numberOfSamples >= 1;
    }
    if n == Buffered(lane) {
      EmptyIffNothingBuffered(after);
      assert after.queue == [];
      assert lane.queue[..|lane.queue|] == lane.queue;
    }
  }

  /** The sequence records chain: the first begins at minus the cursor and continues an
      earlier window exactly when the cursor is past the first sample; each next record
      begins where the previous one ends; all are for the given slot. */
  lemma {:induction false} SequenceSpansChain(slot: nat, lane: Lane, m: nat)
    requires Positioned(lane) && 1 <= m <= |lane.queue|
    ensures var r := SequenceSpans(slot, lane.queue, lane.position, m);
            && r[0].span == SequenceSpan(-(lane.position as int), lane.queue[0].numberOfSamples, lane.position > 0)
            && (forall j :: 0 <= j < m ==> r[j].slot == slot && r[j].span.SequenceSpan?)
            && (forall j :: 0 <= j < m - 1 ==> r[j].span.start + r[j].span.length == r[j + 1].span.start)
            && (forall j :: 1 <= j < m ==> !r[j].span.continuesPrevious && r[j].span.start > 0)
            && r[m - 1].span.start + r[m - 1].span.length == TotalCount(lane.queue[..m]) - lane.position
    decreases m
  {
    var q := lane.queue;
    var c := lane.position;
    var r := SequenceSpans(slot, q, c, m);
    TotalCountPrefix(q, m - 1);
    if m == 1 {
      assert q[..0] == [];
    } else {
      SequenceSpansChain(slot, lane, m - 1);
      var r' := SequenceSpans(slot, q, c, m - 1);
      assert r == r' + [r[m - 1]];
      TotalCountPrefix(q, m - 2);
      TotalCountPositive(q, m - 1);
      assert TotalCount(q[..m - 1]) >= TotalCount(q[..1]) > c by {
        TotalCountMonotone(q, 1, m - 1);
        TotalCountPrefix(q, 0);
        assert q[..0] == [];
      }
    }
  }

  lemma {:induction false} TotalCountMonotone(queue: seq<SequenceData>, i: nat, j: nat)
    requires i <= j <= |queue|
    ensures TotalCount(queue[..i]) <= TotalCount(queue[..j])
    decreases j - i
  {
    if i < j {
      TotalCountPrefix(queue, j - 1);
      TotalCountMonotone(queue, i, j - 1);
    }
  }

  lemma TotalCountPositive(queue: seq<SequenceData>, j: nat)
    requires 1 <= j <= |queue| && queue[j - 1].numberOfSamples >= 1
    ensures TotalCount(queue[..j]) >= 1
  {
    TotalCountPrefix(queue, j - 1);
  }

  /** Samples of [0, T) that the first m sequence records cover: everything the first m
      sequences hold from the cursor on, cut at T. */
  lemma {:induction false} SequenceSpansCover(slot: nat, lane: Lane, m: nat, timeSteps: nat)
    requires Positioned(lane) && 1 <= m <= |lane.queue|
    ensures SumCovered(SequenceSpans(slot, lane.queue, lane.position, m), timeSteps)
         == Min(TotalCount(lane.queue[..m]) - lane.position, timeSteps)
    decreases m
  {
    var q := lane.queue;
    var c := lane.position;
    var r := SequenceSpans(slot, q, c, m);
    TotalCountPrefix(q, m - 1);
    assert r[..m - 1] == SequenceSpans(slot, q, c, m - 1);
    if m == 1 {
      assert q[..0] == [];
    } else {
      SequenceSpansCover(slot, lane, m - 1, timeSteps);
      TotalCountMonotone(q, 1, m - 1);
      TotalCountPrefix(q, 0);
      assert q[..0] == [];
    }
  }

  /** A packed window of n = min(T, pending) samples covers exactly n time steps: the
      slot's share of GetActualNumSamples. */
  lemma SlotSpansCover(slot: nat, lane: Lane, n: nat, timeSteps: nat)
    requires Positioned(lane) && n == Min(timeSteps, Buffered(lane))
    ensures SumCovered(SlotSpans(slot, lane, n, timeSteps), timeSteps) == n
  {
    if n > 0 {
      var m := Touched(lane, n);
      WindowTiles(lane, n);
      SequenceSpansCover(slot, lane, m, timeSteps);
      var gap := if n < timeSteps then [LayoutEntry(slot, GapSpan(n, timeSteps - n))] else [];
      SumCoveredAppend(SequenceSpans(slot, lane.queue, lane.position, m), gap, timeSteps);
      if gap != [] {
        assert gap[..0] == [];
        assert lane.queue[..|lane.queue|] == lane.queue;
      }
    }
  }

  /** Sample counts of a queue, front first: all that the layout of a window depends on. */
  function Counts(queue: seq<SequenceData>): (r: seq<nat>)
    ensures |r| == |queue|
    ensures forall j :: 0 <= j < |queue| ==> r[j] == queue[j].numberOfSamples
  {
    seq(|queue|, j requires 0 <= j < |queue| => queue[j].numberOfSamples)
  }

  lemma {:induction false} TotalCountOfCounts(a: seq<SequenceData>, b: seq<SequenceData>)
    requires Counts(a) == Counts(b)
    ensures TotalCount(a) == TotalCount(b)
    decreases |a|
  {
    if a != [] {
      var k := |a| - 1;
      assert Counts(a[..k]) == Counts(b[..k]) by {
        assert forall j :: 0 <= j < k ==> a[..k][j] == a[j] && b[..k][j] == b[j];
      }
      TotalCountOfCounts(a[..k], b[..k]);
    }
  }

  /** Two slots whose queues have the same sample counts and the same cursor pack in step:
      they hold as many samples, and stay in step after any number of packed samples. */
  lemma {:induction false} ConsumeInStep(a: Lane, b: Lane, m: nat)
    requires Positioned(a) && Positioned(b)
    requires Counts(a.queue) == Counts(b.queue) && a.position == b.position
    requires m <= Buffered(a)
    ensures Buffered(a) == Buffered(b)
    ensures Counts(Consume(a, m).queue) == Counts(Consume(b, m).queue)
    ensures Consume(a, m).position == Consume(b, m).position
    decreases m
  {
    TotalCountOfCounts(a.queue, b.queue);
    if m > 0 {
      ConsumeInStep(a, b, m - 1);
      StepInStep(Consume(a, m - 1), Consume(b, m - 1));
    }
  }

  lemma StepInStep(a: Lane, b: Lane)
    requires Positioned(a) && Positioned(b) && a.queue != [] && b.queue != []
    requires Counts(a.queue) == Counts(b.queue) && a.position == b.position
    ensures Counts(Step(a).queue) == Counts(Step(b).queue)
    ensures Step(a).position == Step(b).position
  {
    assert Counts(a.queue)[0] == Counts(b.queue)[0];
    assert Counts(a.queue[1..]) == Counts(a.queue)[1..];
    assert Counts(b.queue[1..]) == Counts(b.queue)[1..];
  }

  /** Slots in step get the same layout records: the layout depends on sample counts only. */
  lemma {:induction false} SequenceSpansInStep(slot: nat, a: seq<SequenceData>, b: seq<SequenceData>, position: nat, m: nat)
    requires Counts(a) == Counts(b) && m <= |a|
    ensures SequenceSpans(slot, a, position, m) == SequenceSpans(slot, b, position, m)
    decreases m
  {
    if m > 0 {
      SequenceSpansInStep(slot, a, b, position, m - 1);
      assert Counts(a[..m - 1]) == Counts(b[..m - 1]) by {
        assert forall j :: 0 <= j < m - 1 ==> a[..m - 1][j] == a[j] && b[..m - 1][j] == b[j];
      }
      TotalCountOfCounts(a[..m - 1], b[..m - 1]);
      assert a[m - 1].numberOfSamples == Counts(a)[m - 1];
    }
  }

  lemma {:induction false} TouchedInStep(a: Lane, b: Lane, n: nat)
    requires Positioned(a) && Positioned(b)
    requires Counts(a.queue) == Counts(b.queue) && a.position == b.position
    requires 1 <= n <= Buffered(a)
    ensures Buffered(a) == Buffered(b) && Touched(a, n) == Touched(b, n)
  {
    ConsumeInStep(a, b, n);
  }

  lemma SlotSpansInStep(slot: nat, a: Lane, b: Lane, n: nat, timeSteps: nat)
    requires Positioned(a) && Positioned(b)
    requires Counts(a.queue) == Counts(b.queue) && a.position == b.position
    requires n <= Buffered(a) && n <= timeSteps
    ensures Buffered(a) == Buffered(b)
    ensures SlotSpans(slot, a, n, timeSteps) == SlotSpans(slot, b, n, timeSteps)
  {
    TotalCountOfCounts(a.queue, b.queue);
    if n > 0 {
      TouchedInStep(a, b, n);
      SequenceSpansInStep(slot, a.queue, b.queue, a.position, Touched(a, n));
    }
  }
}
