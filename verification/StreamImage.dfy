/** The streamed file is the sequential writer's file: what every state of the
    streaming pipeline keeps, and why it always ends. */
module StreamImage {
  import opened Bytes
  import opened ImageFormat
  import opened StreamPipeline

  ghost predicate SlotsOk(c: Config, st: Stream) {
    && |st.buffers| == c.nSlots && Circulating(st) == c.nSlots
    && forall s: nat :: Owners(st, s) == One(s < c.nSlots)
  }

  /** A queued or writing item: its range was captured, its slot still holds it, its
      offset is where the sequential writer puts the range. */
  ghost predicate ItemOk(c: Config, st: Stream, item: Item) {
    && item.index < |st.captured| && item.slot < |st.buffers|
    && st.buffers[item.slot] == st.captured[item.index]
    && item.offset == c.Start() + SizeUpTo(st.captured, item.index)
  }

  ghost predicate LayoutOk(c: Config, st: Stream) {
    var n := |st.captured|;
    && st.curOff == c.Start() + SizeUpTo(st.captured, n) <= |st.img|
    && st.descs == Descs(st.captured, c.Start(), n) && st.total == LengthUpTo(st.captured, n)
  }

  ghost predicate ProducerOk(c: Config, st: Stream) {
    && st.next <= c.ranges && (st.closed <==> st.producer.Joining? || st.producer.Finished?)
    && match st.producer
       case Ready => |st.captured| == st.next && !st.failed
       case Filling(s) => |st.captured| == st.next < c.ranges && s < |st.buffers| && !st.failed
       case Pushing(item) => |st.captured| == st.next + 1 <= c.ranges && item.index == st.next && ItemOk(c, st, item) && !st.failed
       case Stopped(s) => |st.captured| == st.next && st.failed
       case _ => |st.captured| == st.next && (!st.failed ==> st.next == c.ranges)
  }

  /** First-in first-out: the queue holds consecutive ranges up to `next`. */
  ghost predicate QueueOk(c: Config, st: Stream) {
    |st.queue| <= st.next && |st.queue| <= c.capacity && forall i :: 0 <= i < |st.queue| ==>
      ItemOk(c, st, st.queue[i]) && st.queue[i].index == st.next - |st.queue| + i
  }

  /** Ranges taken from the queue so far. */
  function Popped(st: Stream): int { st.next - |st.queue| }

  ghost predicate WrittenTo(img: seq<byte>, off: nat, body: seq<byte>, k: nat) {
    off + |body| <= |img| && k <= |body| && forall i :: 0 <= i < k ==> img[off + i] == body[i]
  }

  predicate WritesRange(w: Writer, j: int) {
    w.Writing? && w.item.index == j
  }

  ghost predicate WriterOk(c: Config, st: Stream, w: Writer) {
    && (w.Writing? ==> ItemOk(c, st, w.item) && w.item.index < Popped(st)
                       && WrittenTo(st.img, w.item.offset, Body(st.captured[w.item.index]), w.k))
    && (w.Exited? ==> st.closed && st.queue == [])
  }

  ghost predicate WritersOk(c: Config, st: Stream) {
    && (forall w :: 0 <= w < |st.writers| ==> WriterOk(c, st, st.writers[w]))
    && (forall v, w, j ::
          0 <= v < |st.writers| && 0 <= w < |st.writers| && WritesRange(st.writers[v], j) && WritesRange(st.writers[w], j) ==> v == w)
  }

  ghost predicate AtSomeWriter(st: Stream, j: int) {
    exists w :: 0 <= w < |st.writers| && WritesRange(st.writers[w], j)
  }

  ghost predicate RangeDone(c: Config, st: Stream, j: nat)
    requires j < |st.captured|
  {
    WrittenTo(st.img, c.Start() + SizeUpTo(st.captured, j), Body(st.captured[j]), BodySize(st.captured[j]))
  }

  /** A popped range is with a writer, or completely in the file. */
  ghost predicate DoneOk(c: Config, st: Stream) {
    forall j :: 0 <= j < Popped(st) && j < |st.captured| ==> AtSomeWriter(st, j) || RangeDone(c, st, j)
  }

  ghost predicate Inv(c: Config, st: Stream) {
    SlotsOk(c, st) && LayoutOk(c, st) && ProducerOk(c, st) && QueueOk(c, st) && WritersOk(c, st) && DoneOk(c, st)
  }

  // ---------------------------------------------------------------- frames

  lemma {:induction false} SizeAppend(caps: seq<Capture>, x: Capture, i: nat)
    requires i <= |caps|
    ensures SizeUpTo(caps + [x], i) == SizeUpTo(caps, i) && LengthUpTo(caps + [x], i) == LengthUpTo(caps, i)
  {
    if i > 0 {
      SizeAppend(caps, x, i - 1);
    }
  }

  lemma {:induction false} DescsAppend(caps: seq<Capture>, x: Capture, start: nat, i: nat)
    requires i <= |caps|
    ensures Descs(caps + [x], start, i) == Descs(caps, start, i)
  {
    if i > 0 {
      DescsAppend(caps, x, start, i - 1);
      SizeAppend(caps, x, i - 1);
    }
  }

  /** Two ranges' places in the file do not overlap. */
  lemma {:induction false} RangesApart(caps: seq<Capture>, i: nat, j: nat)
    requires i < |caps| && j < |caps| && i != j
    ensures SizeUpTo(caps, i) + BodySize(caps[i]) <= SizeUpTo(caps, j)
         || SizeUpTo(caps, j) + BodySize(caps[j]) <= SizeUpTo(caps, i)
  {
    if i < j {
      SizeMono(caps, i + 1, j);
    } else {
      SizeMono(caps, j + 1, i);
    }
  }

  /** The producer's slot belongs to no item. */
  lemma {:induction false} FillApart(c: Config, st: Stream, s: nat)
    requires SlotsOk(c, st) && AtProducer(st.producer, s)
    ensures forall i :: 0 <= i < |st.queue| ==> st.queue[i].slot != s
    ensures forall w :: 0 <= w < |st.writers| && st.writers[w].Writing? ==> st.writers[w].item.slot != s
  {
    assert Owners(st, s) <= 1;
    forall i | 0 <= i < |st.queue| ensures st.queue[i].slot != s {
      if st.queue[i].slot == s {
        InQueueHas(st.queue, i, s);
      }
    }
    forall w | 0 <= w < |st.writers| && st.writers[w].Writing? ensures st.writers[w].item.slot != s {
      if st.writers[w].item.slot == s {
        AtWritersHas(st.writers, w, s);
      }
    }
  }

  lemma {:induction false} SlotsKept(c: Config, st: Stream, step: Step)
    requires SlotsOk(c, st) && CanStep(c, st, step)
    ensures SlotsOk(c, After(c, st, step))
  {
    var st' := After(c, st, step);
    forall s: nat ensures Owners(st', s) == One(s < c.nSlots) {
      StepConservesSlots(c, st, step, s);
    }
    StepConservesSlots(c, st, step, 0);
    hide Owners, Circulating, Body, Head, Table, DataStart;
  }

  /** Nothing but the capture buffers of the producer's slot changed. */
  lemma {:induction false} ScribbleKeeps(c: Config, st: Stream, content: Capture)
    requires Inv(c, st) && CanStep(c, st, Scribble(content))
    ensures Inv(c, After(c, st, Scribble(content)))
  {
    SlotsKept(c, st, Scribble(content));
    FillApart(c, st, st.producer.slot);
    var st' := After(c, st, Scribble(content));
    hide SlotsOk, SizeUpTo, WrittenTo, Descs, LengthUpTo;
    assert forall w :: 0 <= w < |st.writers| ==> WriterOk(c, st, st.writers[w]) && WriterOk(c, st', st'.writers[w]);
    forall j | 0 <= j < Popped(st') && j < |st'.captured| ensures AtSomeWriter(st', j) || RangeDone(c, st', j) {
      assert AtSomeWriter(st, j) ==> AtSomeWriter(st', j);
    }
  }

  lemma {:induction false} CapturedLayout(c: Config, st: Stream, content: Capture)
    requires LayoutOk(c, st) && CanStep(c, st, Captured(content))
    ensures LayoutOk(c, After(c, st, Captured(content)))
  {
    var n := |st.captured|;
    SizeAppend(st.captured, content, n);
    DescsAppend(st.captured, content, c.Start(), n);
    hide DataStart;
  }

  lemma {:induction false} CapturedKeeps(c: Config, st: Stream, content: Capture)
    requires Inv(c, st) && CanStep(c, st, Captured(content))
    ensures Inv(c, After(c, st, Captured(content)))
  {
    var st' := After(c, st, Captured(content));
    SlotsKept(c, st, Captured(content));
    FillApart(c, st, st.producer.slot);
    CapturedLayout(c, st, content);
    forall i: nat | i <= |st.captured| ensures SizeUpTo(st'.captured, i) == SizeUpTo(st.captured, i) {
      SizeAppend(st.captured, content, i);
    }
    assert st.curOff == c.Start() + SizeUpTo(st.captured, |st.captured|);
    hide SlotsOk, SizeUpTo, Descs, LengthUpTo, LayoutOk, WrittenTo, DataStart, Body;
    assert ProducerOk(c, st');
    forall w | 0 <= w < |st'.writers| ensures WriterOk(c, st', st'.writers[w]) {
      assert WriterOk(c, st, st.writers[w]);
    }
    forall j | 0 <= j < Popped(st') && j < |st'.captured| ensures AtSomeWriter(st', j) || RangeDone(c, st', j) {
      assert AtSomeWriter(st, j) ==> AtSomeWriter(st', j);
    }
  }

  /** Producer steps that move only the producer, the free stack and the queue's end. */
  lemma {:induction false} ProducerKeeps(c: Config, st: Stream, step: Step)
    requires Inv(c, st) && CanStep(c, st, step)
    requires step.Acquire? || step.Fail? || step.GiveBack? || step.Push? || step.Close?
    ensures Inv(c, After(c, st, step))
  {
    var st' := After(c, st, step);
    SlotsKept(c, st, step);
    assert step.Acquire? ==> st'.producer.slot < |st.buffers| by {
      if step.Acquire? {
        OnStackHas(st.free, |st.free| - 1);
        assert Owners(st, st'.producer.slot) == One(st'.producer.slot < c.nSlots);
      }
    }
    hide SlotsOk, SizeUpTo, Descs, LengthUpTo, WrittenTo, DataStart, Body;
    assert LayoutOk(c, st') && ProducerOk(c, st');
    hide LayoutOk, ProducerOk;
    assert Popped(st') == Popped(st);
    forall w | 0 <= w < |st'.writers| ensures WriterOk(c, st', st'.writers[w]) {
      assert WriterOk(c, st, st.writers[w]);
      ExitedStays(c, st, step, w);
    }
    forall j | 0 <= j < Popped(st') && j < |st'.captured| ensures AtSomeWriter(st', j) || RangeDone(c, st', j) {
      assert AtSomeWriter(st, j) ==> AtSomeWriter(st', j);
    }
  }

  lemma {:induction false} ExitedStays(c: Config, st: Stream, step: Step, w: nat)
    requires Inv(c, st) && CanStep(c, st, step) && w < |st.writers|
    requires step.Acquire? || step.Fail? || step.GiveBack? || step.Push? || step.Close?
    ensures st.writers[w].Exited? ==> After(c, st, step).closed && After(c, st, step).queue == []
  {
    assert WriterOk(c, st, st.writers[w]);
    hide SlotsOk, LayoutOk, DoneOk, QueueOk;
  }

  /** A writer takes the oldest range, the next in range order. */
  lemma {:induction false} PopKeeps(c: Config, st: Stream, w: nat)
    requires Inv(c, st) && CanStep(c, st, Pop(w))
    ensures Inv(c, After(c, st, Pop(w)))
    ensures WritesRange(After(c, st, Pop(w)).writers[w], Popped(st))
  {
    var st' := After(c, st, Pop(w));
    SlotsKept(c, st, Pop(w));
    assert ItemOk(c, st, st.queue[0]) && st.queue[0].index == Popped(st);
    PlaceInFile(c, st, st.queue[0]);
    hide SlotsOk, SizeUpTo, Descs, LengthUpTo, DataStart, Body;
    assert LayoutOk(c, st') && ProducerOk(c, st');
    hide LayoutOk, ProducerOk;
    assert QueueOk(c, st');
    forall v | 0 <= v < |st'.writers| ensures WriterOk(c, st', st'.writers[v]) {
      assert WriterOk(c, st, st.writers[v]);
    }
    hide ItemOk, WrittenTo;
    forall u, v, j | 0 <= u < |st'.writers| && 0 <= v < |st'.writers|
                     && WritesRange(st'.writers[u], j) && WritesRange(st'.writers[v], j) ensures u == v {
      assert WriterOk(c, st, st.writers[u]) && WriterOk(c, st, st.writers[v]);
      assert u != w ==> WritesRange(st.writers[u], j);
      assert v != w ==> WritesRange(st.writers[v], j);
    }
    forall j | 0 <= j < Popped(st') && j < |st'.captured| ensures AtSomeWriter(st', j) || RangeDone(c, st', j) {
      if j == Popped(st) {
        assert WritesRange(st'.writers[w], j);
      } else if AtSomeWriter(st, j) {
        var v :| 0 <= v < |st.writers| && WritesRange(st.writers[v], j);
        assert WritesRange(st'.writers[v], j);
      }
    }
  }

  lemma {:induction false} PlaceInFile(c: Config, st: Stream, item: Item)
    requires LayoutOk(c, st) && ItemOk(c, st, item)
    ensures item.offset + BodySize(st.captured[item.index]) <= |st.img|
    ensures WrittenTo(st.img, item.offset, Body(st.captured[item.index]), 0)
  {
    SizeMono(st.captured, item.index + 1, |st.captured|);
  }

  /** Writing one byte of range `i` keeps what is written of every other range. */
  lemma {:induction false} ByteApart(img: seq<byte>, start: nat, caps: seq<Capture>, i: nat, k: nat, b: byte, j: nat, m: nat)
    requires i < |caps| && j < |caps| && i != j && k < BodySize(caps[i]) && start + SizeUpTo(caps, i) + k < |img|
    requires WrittenTo(img, start + SizeUpTo(caps, j), Body(caps[j]), m)
    ensures WrittenTo(img[start + SizeUpTo(caps, i) + k := b], start + SizeUpTo(caps, j), Body(caps[j]), m)
  {
    RangesApart(caps, i, j);
    hide Body, SizeUpTo;
  }

  /** The byte lands inside the writer's own range, next to what it wrote before. */
  lemma {:induction false} WriteOwn(c: Config, st: Stream, w: nat)
    requires Inv(c, st) && CanStep(c, st, WriteByte(w))
    ensures WriterOk(c, After(c, st, WriteByte(w)), After(c, st, WriteByte(w)).writers[w])
    ensures var item := st.writers[w].item;
            && item.index < |st.captured| && st.writers[w].k < BodySize(st.captured[item.index])
            && item.offset == c.Start() + SizeUpTo(st.captured, item.index)
            && c.Start() + SizeUpTo(st.captured, item.index) + st.writers[w].k < |st.img|
    ensures var item, k := st.writers[w].item, st.writers[w].k;
            After(c, st, WriteByte(w)) ==
            st.(img := st.img[c.Start() + SizeUpTo(st.captured, item.index) + k := Cell(st, w)],
              writers := st.writers[w := Writing(item, k + 1)])
  {
    assert WriterOk(c, st, st.writers[w]);
    hide SlotsOk, LayoutOk, QueueOk, ProducerOk, DoneOk, SizeUpTo, DataStart;
  }

  lemma {:induction false} WriteOthers(c: Config, st: Stream, w: nat, v: nat)
    requires Inv(c, st) && CanStep(c, st, WriteByte(w)) && v < |st.writers| && v != w
    ensures WriterOk(c, After(c, st, WriteByte(w)), st.writers[v])
  {
    WriteOwn(c, st, w);
    assert WriterOk(c, st, st.writers[v]);
    var item := st.writers[w].item;
    hide SlotsOk, LayoutOk, QueueOk, ProducerOk, DoneOk, SizeUpTo, DataStart, WrittenTo, Body, Cell, After, CanStep;
    if st.writers[v].Writing? {
      var other := st.writers[v].item;
      assert WritesRange(st.writers[v], other.index) && WritesRange(st.writers[w], item.index);
      ByteApart(st.img, c.Start(), st.captured, item.index, st.writers[w].k, Cell(st, w), other.index, st.writers[v].k);
    }
  }

  /** A range no writer has any more stays in the file. */
  lemma {:induction false} WriteDone(c: Config, st: Stream, w: nat, j: nat)
    requires Inv(c, st) && CanStep(c, st, WriteByte(w))
    requires j < Popped(st) && j < |st.captured|
    ensures var st' := After(c, st, WriteByte(w)); AtSomeWriter(st', j) || RangeDone(c, st', j)
  {
    var st' := After(c, st, WriteByte(w));
    WriteOwn(c, st, w);
    var item := st.writers[w].item;
    hide SlotsOk, LayoutOk, QueueOk, ProducerOk, WritersOk, SizeUpTo, DataStart, WrittenTo, Body, ItemOk, Cell, After, CanStep;
    if AtSomeWriter(st, j) {
      var v :| 0 <= v < |st.writers| && WritesRange(st.writers[v], j);
      assert WritesRange(st'.writers[v], j);
    } else {
      assert WritesRange(st.writers[w], item.index);
      ByteApart(st.img, c.Start(), st.captured, item.index, st.writers[w].k, Cell(st, w), j, BodySize(st.captured[j]));
    }
  }

  lemma {:induction false} WriteKeeps(c: Config, st: Stream, w: nat)
    requires Inv(c, st) && CanStep(c, st, WriteByte(w))
    ensures Inv(c, After(c, st, WriteByte(w)))
  {
    var st' := After(c, st, WriteByte(w));
    SlotsKept(c, st, WriteByte(w));
    WriteOwn(c, st, w);
    hide SlotsOk, SizeUpTo, Descs, LengthUpTo, DataStart, Body, WrittenTo;
    assert LayoutOk(c, st') && ProducerOk(c, st') && QueueOk(c, st');
    hide LayoutOk, ProducerOk, QueueOk, WriterOk, ItemOk, RangeDone, AtSomeWriter;
    forall j | 0 <= j < Popped(st') && j < |st'.captured| ensures AtSomeWriter(st', j) || RangeDone(c, st', j) {
      WriteDone(c, st, w, j);
    }
    hide DoneOk;
    assert forall u, j: int :: 0 <= u < |st.writers| ==> (WritesRange(st'.writers[u], j) <==> WritesRange(st.writers[u], j));
    forall v | 0 <= v < |st'.writers| ensures WriterOk(c, st', st'.writers[v]) {
      if v != w {
        WriteOthers(c, st, w, v);
      }
    }
  }

  lemma {:induction false} ReleaseKeeps(c: Config, st: Stream, w: nat)
    requires Inv(c, st) && CanStep(c, st, Release(w))
    ensures Inv(c, After(c, st, Release(w)))
    ensures RangeDone(c, After(c, st, Release(w)), st.writers[w].item.index)
  {
    var st' := After(c, st, Release(w));
    SlotsKept(c, st, Release(w));
    var item := st.writers[w].item;
    assert WriterOk(c, st, st.writers[w]);
    assert RangeDone(c, st', item.index);
    hide SlotsOk, SizeUpTo, Descs, LengthUpTo, DataStart, Body, WrittenTo;
    assert LayoutOk(c, st') && ProducerOk(c, st') && QueueOk(c, st');
    hide LayoutOk, ProducerOk, QueueOk;
    assert forall u, j: int :: 0 <= u < |st.writers| && u != w ==> (WritesRange(st'.writers[u], j) <==> WritesRange(st.writers[u], j));
    forall v | 0 <= v < |st'.writers| ensures WriterOk(c, st', st'.writers[v]) {
      assert WriterOk(c, st, st.writers[v]);
    }
    hide WriterOk;
    forall j | 0 <= j < Popped(st') && j < |st'.captured| ensures AtSomeWriter(st', j) || RangeDone(c, st', j) {
      if AtSomeWriter(st, j) && j != item.index {
        var v :| 0 <= v < |st.writers| && WritesRange(st.writers[v], j);
        assert WritesRange(st'.writers[v], j);
      }
    }
  }

  lemma {:induction false} ExitKeeps(c: Config, st: Stream, w: nat)
    requires Inv(c, st) && CanStep(c, st, Exit(w))
    ensures Inv(c, After(c, st, Exit(w)))
  {
    var st' := After(c, st, Exit(w));
    SlotsKept(c, st, Exit(w));
    hide SlotsOk, SizeUpTo, Descs, LengthUpTo, DataStart, Body, WrittenTo;
    assert LayoutOk(c, st') && ProducerOk(c, st') && QueueOk(c, st');
    hide LayoutOk, ProducerOk, QueueOk;
    forall v | 0 <= v < |st'.writers| ensures WriterOk(c, st', st'.writers[v]) {
      assert WriterOk(c, st, st.writers[v]);
    }
    hide WriterOk;
    assert forall u, j: int :: 0 <= u < |st.writers| ==> (WritesRange(st'.writers[u], j) <==> WritesRange(st.writers[u], j));
    forall j | 0 <= j < Popped(st') && j < |st'.captured| ensures AtSomeWriter(st', j) || RangeDone(c, st', j) {
      if AtSomeWriter(st, j) {
        var v :| 0 <= v < |st.writers| && WritesRange(st.writers[v], j);
        assert WritesRange(st'.writers[v], j);
      }
    }
  }

  /** Every step of the producer or of any writer keeps the pipeline's invariant. */
  lemma {:induction false} StepKeepsInv(c: Config, st: Stream, step: Step)
    requires Inv(c, st) && CanStep(c, st, step) && !step.Finish?
    ensures Inv(c, After(c, st, step))
  {
    hide Inv, CanStep, After;
    match step
    case Scribble(content) => ScribbleKeeps(c, st, content);
    case Captured(content) => CapturedKeeps(c, st, content);
    case Pop(w) => PopKeeps(c, st, w);
    case WriteByte(w) => WriteKeeps(c, st, w);
    case Release(w) => ReleaseKeeps(c, st, w);
    case Exit(w) => ExitKeeps(c, st, w);
    case _ => ProducerKeeps(c, st, step);
  }

  lemma {:induction false} InitInv(c: Config, st: Stream)
    requires Init(c, st)
    ensures Inv(c, st)
  {
    forall s: nat ensures Owners(st, s) == One(s < c.nSlots) {
      FreshStack(c.nSlots, s);
      IdleHoldNone(st.writers, s);
    }
    IdleHoldNone(st.writers, 0);
    assert LayoutOk(c, st) && ProducerOk(c, st) && QueueOk(c, st) && DoneOk(c, st);
    hide Owners, LayoutOk, ProducerOk, QueueOk, DoneOk, DataStart;
  }

  /** In every reachable state each pool slot is in exactly one place: on the free stack,
      in the queue, with the producer or with one writer. */
  lemma {:induction false} NoTwoOwners(c: Config, st: Stream, s: nat) returns (a: Place)
    requires Inv(c, st) && s < c.nSlots
    ensures IsAt(st.free, st.queue, st.producer, st.writers, a, s)
    ensures forall b :: IsAt(st.free, st.queue, st.producer, st.writers, b, s) ==> b == a
  {
    hide LayoutOk, ProducerOk, QueueOk, WritersOk, DoneOk;
    assert Owners(st, s) == 1;
    a := SomePlace(st.free, st.queue, st.producer, st.writers, s);
    forall b | IsAt(st.free, st.queue, st.producer, st.writers, b, s) ensures b == a {
      OnePlace(st.free, st.queue, st.producer, st.writers, a, b, s);
    }
    hide IsAt;
  }

  /** With a queue at least as large as the pool, a push never waits: the producer's
      own slot is one the queue cannot hold. */
  lemma {:induction false} PushNeverBlocks(c: Config, st: Stream)
    requires Inv(c, st) && st.producer.Pushing? && c.nSlots <= c.capacity
    ensures CanStep(c, st, Push)
  {
  }

  // -------------------------------------------------------------- refinement

  ghost predicate Next(c: Config, st: Stream, st': Stream) {
    exists s :: CanStep(c, st, s) && !s.Finish? && st' == After(c, st, s)
  }

  ghost predicate Run(c: Config, trace: seq<Stream>) {
    trace != [] && Init(c, trace[0]) && forall n :: 0 < n < |trace| ==> Next(c, trace[n - 1], trace[n])
  }

  lemma {:induction false} RunKeepsInv(c: Config, trace: seq<Stream>, n: nat)
    requires Run(c, trace) && n < |trace|
    ensures Inv(c, trace[n])
  {
    hide Inv, Init;
    if n == 0 {
      InitInv(c, trace[0]);
    } else {
      RunKeepsInv(c, trace, n - 1);
      assert Next(c, trace[n - 1], trace[n]);
      var s :| CanStep(c, trace[n - 1], s) && !s.Finish? && trace[n] == After(c, trace[n - 1], s);
      StepKeepsInv(c, trace[n - 1], s);
    }
  }

  /** When the writers are gone every captured range is completely in the file. */
  lemma {:induction false} DrainedBodies(c: Config, st: Stream)
    requires Inv(c, st) && |st.writers| > 0 && st.producer.Joining? && forall w :: 0 <= w < |st.writers| ==> st.writers[w].Exited?
    ensures forall j :: 0 <= j < |st.captured| ==> BodyWritten(st.img, c.Start(), st.captured, j)
  {
    assert WriterOk(c, st, st.writers[0]);
    hide SlotsOk, LayoutOk, QueueOk, SizeUpTo, DataStart, Body;
    forall j | 0 <= j < |st.captured| ensures BodyWritten(st.img, c.Start(), st.captured, j) {
      assert !AtSomeWriter(st, j);
      assert RangeDone(c, st, j);
    }
  }

  /** The streamed file: under every schedule, once the writers have drained the queue
      and the header is written, the bytes up to the final offset are the image the
      sequential writer builds from the same captures; past it the file is as it was. */
  lemma {:induction false} StreamedIsSequential(c: Config, trace: seq<Stream>)
    requires Run(c, trace)
    requires var st := trace[|trace| - 1];
             CanStep(c, st, Finish) && !st.failed && |st.writers| > 0
    ensures var st := trace[|trace| - 1]; var st' := After(c, st, Finish);
            && |st.captured| == c.ranges && st.curOff <= |st'.img| == |st.img|
            && st'.img[..st.curOff] == Image(c.kind, st.captured)
            && st'.img[st.curOff..] == st.img[st.curOff..]
  {
    var st := trace[|trace| - 1];
    var st' := After(c, st, Finish);
    RunKeepsInv(c, trace, |trace| - 1);
    DrainedBodies(c, st);
    assert |st.captured| == c.ranges && LayoutOk(c, st);
    AssembleBodies(st.img, c.Start(), st.captured, c.ranges);
    hide Inv, Run, BodyWritten, Body, BodySize, SizeUpTo, Bodies, Head, Table, Descs, LengthUpTo;
    var front := Head(c.kind, c.ranges, st.total) + Table(st.descs);
    assert |front| == c.Start();
    Spliced(front, st.img, c.Start(), st.curOff);
  }

  lemma {:induction false} Spliced(front: seq<byte>, img: seq<byte>, start: nat, end: nat)
    requires |front| == start <= end <= |img|
    ensures (front + img[start..])[..end] == front + img[start..end]
    ensures (front + img[start..])[end..] == img[end..] && |front + img[start..]| == |img|
  {
  }

  // ---------------------------------------------------------------- progress

  function ItemWork(st: Stream, item: Item): nat {
    if item.index < |st.captured| then BodySize(st.captured[item.index]) + 3 else 3
  }

  function QueueWork(st: Stream, q: seq<Item>): nat {
    if q == [] then 0 else ItemWork(st, q[0]) + QueueWork(st, q[1..])
  }

  function WriterWork(st: Stream, w: Writer): nat {
    match w
    case Idle => 1
    case Writing(item, k) => if k + 1 <= ItemWork(st, item) then ItemWork(st, item) - 1 - k else 0
    case Exited => 0
  }

  function WritersWork(st: Stream, ws: seq<Writer>): nat {
    if ws == [] then 0 else WritersWork(st, ws[..|ws| - 1]) + WriterWork(st, ws[|ws| - 1])
  }

  function ProducerWork(st: Stream): nat {
    match st.producer
    case Ready => 5
    case Filling(_) => 4
    case Pushing(item) => 6 + ItemWork(st, item)
    case Stopped(_) => 3
    case Joining => 1
    case Finished => 0
  }

  /** Ranges that may still be captured. */
  function Uncaptured(c: Config, st: Stream): int {
    if st.producer.Stopped? || st.producer.Joining? || st.producer.Finished? then 0 else c.ranges - |st.captured|
  }

  function Work(st: Stream): nat {
    ProducerWork(st) + QueueWork(st, st.queue) + WritersWork(st, st.writers)
  }

  lemma {:induction false} BusyWriter(ws: seq<Writer>) returns (w: nat)
    requires Busy(ws) > 0
    ensures w < |ws| && ws[w].Writing?
  {
    w := |ws| - 1;
    if !ws[w].Writing? {
      w := BusyWriter(ws[..w]);
    }
  }

  lemma {:induction false} WriterMoves(c: Config, st: Stream, w: nat) returns (s: Step)
    requires Inv(c, st) && w < |st.writers| && !st.writers[w].Exited?
    requires st.writers[w].Idle? && st.queue == [] ==> st.closed
    ensures CanStep(c, st, s) && !s.Scribble? && !s.Finish? && !s.Fail? && !s.Captured?
  {
    assert WriterOk(c, st, st.writers[w]);
    hide SlotsOk, LayoutOk, QueueOk, ProducerOk, DoneOk, SizeUpTo, DataStart, Body;
    s := match st.writers[w]
         case Idle => if st.queue == [] then Exit(w) else Pop(w)
         case Writing(item, k) => if k < BodySize(st.buffers[item.slot]) then WriteByte(w) else Release(w);
  }

  /** No schedule deadlocks, whether captures fail or not: with at least one writer and
      one slot, and a queue as large as the pool, some step other than a failure is enabled
      until all have ended. A capture call that is out may return with any content that the
      mapping has room for. */
  lemma {:induction false} NeverStuck(c: Config, st: Stream, content: Capture) returns (s: Step)
    requires Inv(c, st) && |st.writers| > 0 && 0 < c.nSlots <= c.capacity && !st.producer.Finished?
    requires st.producer.Filling? ==> st.curOff + BodySize(content) <= |st.img|
    ensures CanStep(c, st, s) && !s.Scribble? && !s.Fail? && (s.Captured? ==> s.content == content)
  {
    match st.producer
    case Filling(_) => s := Captured(content);
    case Stopped(_) => s := GiveBack;
    case Pushing(_) =>
      PushNeverBlocks(c, st);
      s := Push;
    case Ready =>
      if st.next == c.ranges {
        s := Close;
      } else if st.free != [] {
        s := Acquire;
      } else {
        s := WriterDrains(c, st);
      }
    case Joining =>
      if w :| 0 <= w < |st.writers| && !st.writers[w].Exited? {
        s := WriterMoves(c, st, w);
      } else {
        s := Finish;
        assert LayoutOk(c, st) && ProducerOk(c, st);
      }
  }

  /** When the pool is empty and the producer holds nothing, a writer has work. */
  lemma {:induction false} WriterDrains(c: Config, st: Stream) returns (s: Step)
    requires Inv(c, st) && |st.writers| > 0 && c.nSlots > 0 && st.producer.Ready? && st.free == []
    ensures CanStep(c, st, s) && !s.Scribble? && !s.Finish? && !s.Fail? && !s.Captured?
  {
    var w := 0;
    if Busy(st.writers) > 0 {
      w := BusyWriter(st.writers);
    } else {
      assert st.queue != [];
      assert WriterOk(c, st, st.writers[0]);
    }
    s := WriterMoves(c, st, w);
  }

  lemma {:induction false} WritersWorkUpdate(st: Stream, ws: seq<Writer>, w: nat, x: Writer)
    requires w < |ws|
    ensures WritersWork(st, ws[w := x]) + WriterWork(st, ws[w]) == WritersWork(st, ws) + WriterWork(st, x)
    decreases |ws|
  {
    var n := |ws| - 1;
    if w == n {
      assert ws[w := x][..n] == ws[..n];
    } else {
      WritersWorkUpdate(st, ws[..n], w, x);
      assert ws[w := x][..n] == ws[..n][w := x];
    }
  }

  lemma {:induction false} QueueWorkPush(st: Stream, q: seq<Item>, item: Item)
    ensures QueueWork(st, q + [item]) == QueueWork(st, q) + ItemWork(st, item)
  {
    if q == [] {
      assert q + [item] == [item];
    } else {
      QueueWorkPush(st, q[1..], item);
      assert (q + [item])[1..] == q[1..] + [item];
    }
  }

  lemma {:induction false} SameWork(st: Stream, st': Stream, q: seq<Item>, ws: seq<Writer>)
    requires st'.captured == st.captured
    ensures QueueWork(st', q) == QueueWork(st, q) && WritersWork(st', ws) == WritersWork(st, ws)
    decreases |q| + |ws|
  {
    if q != [] {
      SameWork(st, st', q[1..], ws);
    } else if ws != [] {
      SameWork(st, st', q, ws[..|ws| - 1]);
    }
  }

  /** Every step but a partial buffer write makes progress: either one range fewer is
      left to capture, or less is left to write, hand over and join. */
  lemma {:induction false} StepsShorten(c: Config, st: Stream, s: Step)
    requires Inv(c, st) && CanStep(c, st, s) && !s.Scribble?
    ensures var st' := After(c, st, s);
            && 0 <= Uncaptured(c, st') <= Uncaptured(c, st)
            && (Uncaptured(c, st') == Uncaptured(c, st) ==> Work(st') < Work(st))
  {
    var st' := After(c, st, s);
    assert ProducerOk(c, st);
    if s.Captured? {
      assert st'.captured == st.captured + [s.content];
    } else {
      SameWork(st, st', st'.queue, st'.writers);
      WorkShrinks(c, st, s);
    }
  }

  lemma {:induction false} WorkShrinks(c: Config, st: Stream, s: Step)
    requires Inv(c, st) && CanStep(c, st, s) && !s.Scribble? && !s.Captured?
    ensures var st' := After(c, st, s);
            ProducerWork(st') + QueueWork(st, st'.queue) + WritersWork(st, st'.writers) < Work(st)
  {
    hide Inv, QueueWork, WritersWork, WriterWork;
    var st' := After(c, st, s);
    if s.Pop? || s.WriteByte? || s.Release? || s.Exit? {
      WriterStepShrinks(c, st, s, s.w);
      WritersWorkUpdate(st, st.writers, s.w, st'.writers[s.w]);
    } else if s.Push? {
      QueueWorkPush(st, st.queue, st.producer.item);
    }
  }

  lemma {:induction false} WriterStepShrinks(c: Config, st: Stream, s: Step, w: nat)
    requires Inv(c, st) && CanStep(c, st, s)
    requires s == Pop(w) || s == WriteByte(w) || s == Release(w) || s == Exit(w)
    ensures w < |st.writers|
    ensures var st' := After(c, st, s);
            && st'.producer == st.producer && st'.writers == st.writers[w := st'.writers[w]]
            && QueueWork(st, st'.queue) + WriterWork(st, st'.writers[w]) < QueueWork(st, st.queue) + WriterWork(st, st.writers[w])
  {
    assert WriterOk(c, st, st.writers[w]);
    hide Inv, ItemOk, WrittenTo;
  }
}
