/** The streaming baseline: one capture thread, a slot pool, a bounded queue and N
    writer threads filling a shared mapping, as a step system over every schedule. */
module StreamPipeline {
  import opened Bytes
  import opened ImageFormat

  datatype Item = Item(index: nat, offset: nat, slot: nat)

  datatype Producer =
    | Ready                  // between ranges
    | Filling(slot: nat)     // a pool slot is held, the capture call is writing it
    | Pushing(item: Item)    // offset assigned, descriptor filled, waiting for room
    | Stopped(slot: nat)     // the capture call failed
    | Joining                // queue closed, waiting for the writers
    | Finished

  datatype Writer = Idle | Writing(item: Item, k: nat) | Exited

  /** `captured` lists what the capture calls delivered, in range order. */
  datatype Stream = Stream(
    producer: Producer, next: nat, captured: seq<Capture>, descs: seq<Desc>, total: nat, curOff: nat,
    free: seq<nat>, buffers: seq<Capture>, queue: seq<Item>, closed: bool, writers: seq<Writer>, img: seq<byte>, failed: bool)

  /** Kind of image, number of ranges, queue capacity and pool size. */
  datatype Config = Config(kind: Kind, ranges: nat, capacity: nat, nSlots: nat) {
    function Start(): nat { DataStart(kind, ranges) }
  }

  datatype Step =
    | Acquire
    | Scribble(content: Capture)     // part of a capture call
    | Captured(content: Capture)     // the call returns; offset and descriptor assigned
    | Fail
    | GiveBack                       // return the slot of a failed capture, and close
    | Push
    | Close
    | Pop(w: nat)
    | WriteByte(w: nat)
    | Release(w: nat)
    | Exit(w: nat)
    | Finish                         // every writer joined: header and descriptor table

  ghost predicate Init(c: Config, st: Stream) {
    && st.producer == Ready && st.next == 0 && st.captured == [] && st.descs == [] && st.total == 0
    && st.curOff == c.Start() <= |st.img|
    && st.free == seq(c.nSlots, (i: nat) => i) && |st.buffers| == c.nSlots
    && st.queue == [] && !st.closed && (forall w :: 0 <= w < |st.writers| ==> st.writers[w].Idle?) && !st.failed
  }

  function Cell(st: Stream, w: nat): byte
    requires w < |st.writers| && st.writers[w].Writing? && st.writers[w].item.slot < |st.buffers|
    requires st.writers[w].k < BodySize(st.buffers[st.writers[w].item.slot])
  {
    Body(st.buffers[st.writers[w].item.slot])[st.writers[w].k]
  }

  /** The mapping is sized for the worst case, so a capture always fits in it. */
  ghost predicate CanStep(c: Config, st: Stream, s: Step) {
    match s
    case Acquire => st.producer.Ready? && st.next < c.ranges && st.free != []
    case Scribble(_) => st.producer.Filling? && st.producer.slot < |st.buffers|
    case Captured(content) =>
      st.producer.Filling? && st.producer.slot < |st.buffers| && st.curOff + BodySize(content) <= |st.img|
    case Fail => st.producer.Filling?
    case GiveBack => st.producer.Stopped?
    case Push => st.producer.Pushing? && |st.queue| < c.capacity
    case Close => st.producer.Ready? && st.next >= c.ranges
    case Pop(w) => w < |st.writers| && st.writers[w].Idle? && st.queue != []
    case WriteByte(w) =>
      && w < |st.writers| && st.writers[w].Writing? && st.writers[w].item.slot < |st.buffers|
      && st.writers[w].k < BodySize(st.buffers[st.writers[w].item.slot])
      && st.writers[w].item.offset + st.writers[w].k < |st.img|
    case Release(w) =>
      && w < |st.writers| && st.writers[w].Writing? && st.writers[w].item.slot < |st.buffers|
      && st.writers[w].k == BodySize(st.buffers[st.writers[w].item.slot])
    case Exit(w) => w < |st.writers| && st.writers[w].Idle? && st.queue == [] && st.closed
    case Finish => st.producer.Joining? && (forall w :: 0 <= w < |st.writers| ==> st.writers[w].Exited?) && c.Start() <= |st.img|
                   && |st.descs| <= c.ranges
  }

  /** The zeroed descriptor table with the filled entries in front. */
  function Padded(ds: seq<Desc>, n: nat): (r: seq<Desc>)
    requires |ds| <= n
    ensures |r| == n && (|ds| == n ==> r == ds)
  {
    ds + seq(n - |ds|, _ => Desc(0, 0, 0, 0, 0, 0, 0, 0))
  }

  function After(c: Config, st: Stream, s: Step): Stream
    requires CanStep(c, st, s)
  {
    match s
    case Acquire => st.(producer := Filling(st.free[|st.free| - 1]), free := st.free[..|st.free| - 1])
    case Scribble(content) => st.(buffers := st.buffers[st.producer.slot := content])
    case Captured(content) =>
      st.(buffers := st.buffers[st.producer.slot := content], captured := st.captured + [content],
          descs := st.descs + [DescOf(content, st.curOff)], total := st.total + content.length,
          curOff := st.curOff + BodySize(content), producer := Pushing(Item(st.next, st.curOff, st.producer.slot)))
    case Fail => st.(producer := Stopped(st.producer.slot), failed := true)
    case GiveBack => st.(free := st.free + [st.producer.slot], producer := Joining, closed := true)
    case Push => st.(queue := st.queue + [st.producer.item], next := st.next + 1, producer := Ready)
    case Close => st.(producer := Joining, closed := true)
    case Pop(w) => st.(queue := st.queue[1..], writers := st.writers[w := Writing(st.queue[0], 0)])
    case WriteByte(w) =>
      var item, k := st.writers[w].item, st.writers[w].k;
      st.(img := st.img[item.offset + k := Cell(st, w)], writers := st.writers[w := Writing(item, k + 1)])
    case Release(w) => st.(free := st.free + [st.writers[w].item.slot], writers := st.writers[w := Idle])
    case Exit(w) => st.(writers := st.writers[w := Exited])
    case Finish =>
      var front := Head(c.kind, c.ranges, st.total) + Table(Padded(st.descs, c.ranges));
      st.(img := front + st.img[c.Start()..], producer := Finished)
  }

  // ------------------------------------------------------- slot conservation

  function One(b: bool): nat { if b then 1 else 0 }

  /** Occurrences of slot `s` on the free stack. */
  function OnStack(free: seq<nat>, s: nat): nat {
    if free == [] then 0 else OnStack(free[..|free| - 1], s) + One(free[|free| - 1] == s)
  }

  function InQueue(q: seq<Item>, s: nat): nat {
    if q == [] then 0 else InQueue(q[..|q| - 1], s) + One(q[|q| - 1].slot == s)
  }

  predicate WritesSlot(w: Writer, s: nat) {
    w.Writing? && w.item.slot == s
  }

  function AtWriters(ws: seq<Writer>, s: nat): nat {
    if ws == [] then 0 else AtWriters(ws[..|ws| - 1], s) + One(WritesSlot(ws[|ws| - 1], s))
  }

  predicate AtProducer(p: Producer, s: nat) {
    match p
    case Filling(t) => t == s
    case Stopped(t) => t == s
    case Pushing(item) => item.slot == s
    case _ => false
  }

  /** How many owners slot `s` has: free stack, queue, producer, writers. */
  function Held(free: seq<nat>, q: seq<Item>, p: Producer, ws: seq<Writer>, s: nat): nat {
    OnStack(free, s) + InQueue(q, s) + One(AtProducer(p, s)) + AtWriters(ws, s)
  }

  function Owners(st: Stream, s: nat): nat {
    Held(st.free, st.queue, st.producer, st.writers, s)
  }

  /** Where a slot can be. */
  datatype Place = Free(i: nat) | Queued(i: nat) | AtHand | AtWriter(w: nat)

  predicate IsAt(free: seq<nat>, q: seq<Item>, p: Producer, ws: seq<Writer>, place: Place, s: nat) {
    match place
    case Free(i) => i < |free| && free[i] == s
    case Queued(i) => i < |q| && q[i].slot == s
    case AtHand => AtProducer(p, s)
    case AtWriter(w) => w < |ws| && WritesSlot(ws[w], s)
  }

  function Busy(ws: seq<Writer>): nat {
    if ws == [] then 0 else Busy(ws[..|ws| - 1]) + One(ws[|ws| - 1].Writing?)
  }

  predicate HasSlot(p: Producer) {
    p.Filling? || p.Stopped? || p.Pushing?
  }

  /** Slots in circulation. */
  function Circulating(st: Stream): nat {
    |st.free| + |st.queue| + One(HasSlot(st.producer)) + Busy(st.writers)
  }

  lemma {:induction false} OnStackAppend(free: seq<nat>, t: nat, s: nat)
    ensures OnStack(free + [t], s) == OnStack(free, s) + One(t == s)
  {
    assert (free + [t])[..|free|] == free;
  }

  lemma {:induction false} InQueueAppend(q: seq<Item>, item: Item, s: nat)
    ensures InQueue(q + [item], s) == InQueue(q, s) + One(item.slot == s)
  {
    assert (q + [item])[..|q|] == q;
  }

  lemma {:induction false} InQueuePop(q: seq<Item>, s: nat)
    requires q != []
    ensures InQueue(q, s) == One(q[0].slot == s) + InQueue(q[1..], s)
    decreases |q|
  {
    if |q| == 1 {
      assert q[..0] == [] && q[1..] == [];
    } else {
      InQueuePop(q[..|q| - 1], s);
      assert q[..|q| - 1][1..] == q[1..][..|q| - 2];
    }
  }

  lemma {:induction false} AtWritersUpdate(ws: seq<Writer>, w: nat, x: Writer, s: nat)
    requires w < |ws|
    ensures AtWriters(ws[w := x], s) + One(WritesSlot(ws[w], s)) == AtWriters(ws, s) + One(WritesSlot(x, s))
    ensures Busy(ws[w := x]) + One(ws[w].Writing?) == Busy(ws) + One(x.Writing?)
    decreases |ws|
  {
    var n := |ws| - 1;
    if w == n {
      assert ws[w := x][..n] == ws[..n];
    } else {
      AtWritersUpdate(ws[..n], w, x, s);
      assert ws[w := x][..n] == ws[..n][w := x];
    }
  }

  lemma {:induction false} InQueueHas(q: seq<Item>, i: nat, s: nat)
    requires i < |q| && q[i].slot == s
    ensures InQueue(q, s) >= 1
    decreases |q|
  {
    if i < |q| - 1 {
      InQueueHas(q[..|q| - 1], i, s);
    }
  }

  lemma {:induction false} AtWritersHas(ws: seq<Writer>, w: nat, s: nat)
    requires w < |ws| && WritesSlot(ws[w], s)
    ensures AtWriters(ws, s) >= 1
    decreases |ws|
  {
    if w < |ws| - 1 {
      AtWritersHas(ws[..|ws| - 1], w, s);
    }
  }

  lemma {:induction false} AtWritersTwo(ws: seq<Writer>, v: nat, w: nat, s: nat)
    requires v < w < |ws| && WritesSlot(ws[v], s) && WritesSlot(ws[w], s)
    ensures AtWriters(ws, s) >= 2
    decreases |ws|
  {
    if w < |ws| - 1 {
      AtWritersTwo(ws[..|ws| - 1], v, w, s);
    } else {
      AtWritersHas(ws[..|ws| - 1], v, s);
    }
  }

  lemma {:induction false} OnStackHas(free: seq<nat>, i: nat)
    requires i < |free|
    ensures OnStack(free, free[i]) >= 1
    decreases |free|
  {
    if i < |free| - 1 {
      OnStackHas(free[..|free| - 1], i);
    }
  }

  lemma {:induction false} OnStackTwo(free: seq<nat>, i: nat, j: nat)
    requires i < j < |free| && free[i] == free[j]
    ensures OnStack(free, free[i]) >= 2
    decreases |free|
  {
    if j < |free| - 1 {
      OnStackTwo(free[..|free| - 1], i, j);
    } else {
      OnStackHas(free[..j], i);
    }
  }

  lemma {:induction false} InQueueTwo(q: seq<Item>, i: nat, j: nat, s: nat)
    requires i < j < |q| && q[i].slot == s && q[j].slot == s
    ensures InQueue(q, s) >= 2
    decreases |q|
  {
    if j < |q| - 1 {
      InQueueTwo(q[..|q| - 1], i, j, s);
    } else {
      InQueueHas(q[..j], i, s);
    }
  }

  /** A place that has the slot counts as an owner. */
  lemma {:induction false} PlaceCounts(free: seq<nat>, q: seq<Item>, p: Producer, ws: seq<Writer>, a: Place, s: nat)
    requires IsAt(free, q, p, ws, a, s)
    ensures a.Free? ==> OnStack(free, s) >= 1
    ensures a.Queued? ==> InQueue(q, s) >= 1
    ensures a.AtWriter? ==> AtWriters(ws, s) >= 1
  {
    match a
    case Free(i) => OnStackHas(free, i);
    case Queued(i) => InQueueHas(q, i, s);
    case AtHand =>
    case AtWriter(w) => AtWritersHas(ws, w, s);
  }

  /** A slot with one owner is in one place. */
  lemma {:induction false} OnePlace(free: seq<nat>, q: seq<Item>, p: Producer, ws: seq<Writer>, a: Place, b: Place, s: nat)
    requires Held(free, q, p, ws, s) <= 1 && IsAt(free, q, p, ws, a, s) && IsAt(free, q, p, ws, b, s)
    ensures a == b
  {
    PlaceCounts(free, q, p, ws, a, s);
    PlaceCounts(free, q, p, ws, b, s);
    match a
    case Free(i) =>
      if b.Free? && b.i != i { OnStackTwo(free, if i < b.i then i else b.i, if i < b.i then b.i else i); }
    case Queued(i) =>
      if b.Queued? && b.i != i { InQueueTwo(q, if i < b.i then i else b.i, if i < b.i then b.i else i, s); }
    case AtHand =>
    case AtWriter(w) =>
      if b.AtWriter? && b.w != w { AtWritersTwo(ws, if w < b.w then w else b.w, if w < b.w then b.w else w, s); }
  }

  lemma {:induction false} InQueueSome(q: seq<Item>, s: nat) returns (i: nat)
    requires InQueue(q, s) >= 1
    ensures i < |q| && q[i].slot == s
  {
    var n := |q| - 1;
    if q[n].slot == s { i := n; } else { i := InQueueSome(q[..n], s); }
  }

  lemma {:induction false} OnStackSome(free: seq<nat>, s: nat) returns (i: nat)
    requires OnStack(free, s) >= 1
    ensures i < |free| && free[i] == s
  {
    var n := |free| - 1;
    if free[n] == s { i := n; } else { i := OnStackSome(free[..n], s); }
  }

  lemma {:induction false} AtWritersSome(ws: seq<Writer>, s: nat) returns (w: nat)
    requires AtWriters(ws, s) >= 1
    ensures w < |ws| && WritesSlot(ws[w], s)
  {
    var n := |ws| - 1;
    if WritesSlot(ws[n], s) { w := n; } else { w := AtWritersSome(ws[..n], s); }
  }

  /** A slot with an owner is somewhere. */
  lemma {:induction false} SomePlace(free: seq<nat>, q: seq<Item>, p: Producer, ws: seq<Writer>, s: nat) returns (a: Place)
    requires Held(free, q, p, ws, s) >= 1
    ensures IsAt(free, q, p, ws, a, s)
  {
    if OnStack(free, s) >= 1 {
      var i := OnStackSome(free, s);
      a := Free(i);
    } else if InQueue(q, s) >= 1 {
      var i := InQueueSome(q, s);
      a := Queued(i);
    } else if AtProducer(p, s) {
      a := AtHand;
    } else {
      var w := AtWritersSome(ws, s);
      a := AtWriter(w);
    }
  }

  lemma {:induction false} FreshStack(n: nat, s: nat)
    ensures OnStack(seq(n, (i: nat) => i), s) == One(s < n)
  {
    if n > 0 {
      FreshStack(n - 1, s);
      assert seq(n, (i: nat) => i)[..n - 1] == seq(n - 1, (i: nat) => i);
    }
  }

  lemma {:induction false} IdleHoldNone(ws: seq<Writer>, s: nat)
    requires forall w :: 0 <= w < |ws| ==> ws[w].Idle?
    ensures AtWriters(ws, s) == 0 && Busy(ws) == 0
  {
    if ws != [] {
      IdleHoldNone(ws[..|ws| - 1], s);
    }
  }

  /** No step loses a slot, frees it twice or gives it two owners. */
  lemma {:induction false} StepConservesSlots(c: Config, st: Stream, step: Step, s: nat)
    requires CanStep(c, st, step)
    ensures Owners(After(c, st, step), s) == Owners(st, s)
    ensures Circulating(After(c, st, step)) == Circulating(st)
  {
    hide OnStack, InQueue, AtWriters, Busy, Body, Head, Table, DataStart;
    var st' := After(c, st, step);
    match step
    case Acquire =>
      var n := |st.free| - 1;
      assert st.free == st.free[..n] + [st.free[n]];
      OnStackAppend(st.free[..n], st.free[n], s);
    case GiveBack => OnStackAppend(st.free, st.producer.slot, s);
    case Push => InQueueAppend(st.queue, st.producer.item, s);
    case Pop(w) =>
      InQueuePop(st.queue, s);
      AtWritersUpdate(st.writers, w, st'.writers[w], s);
    case WriteByte(w) => AtWritersUpdate(st.writers, w, st'.writers[w], s);
    case Release(w) =>
      AtWritersUpdate(st.writers, w, Idle, s);
      OnStackAppend(st.free, st.writers[w].item.slot, s);
    case Exit(w) => AtWritersUpdate(st.writers, w, Exited, s);
    case _ =>
  }
}
