/** The launcher and workers of the in-app baseline and delta, over every schedule: a slot
    pool, a bounded queue, device copies that land while the item waits, and workers that
    seal each landed slot into the mapped file. */
module V4Pipeline {
  import opened Bytes
  import opened PageCrypto
  import opened BaselineV4
  import SP = StreamPipeline

  /** A staging slot: the work item whose copy was last launched into it, and the chunks of
      it that have landed. */
  datatype Slot = Slot(work: Option<nat>, chunks: seq<seq<byte>>)

  /** What does not change: the cipher, the layout of the file, the dispatched items. */
  datatype Config = Config(c: Cipher, ranges: seq<Range>, base: nat, items: seq<Item>, start: nat, withMap: bool, nSlots: nat, capacity: nat) {
    ghost predicate Valid() {
      c.Sound() && AllWhole(ranges, |ranges|) && BaselineV4.Covered(ranges, base, items, |ranges|, 0)
    }

    function CipherPos(i: nat, j: nat): nat
      requires i < |ranges|
    {
      CipherAt(start, ranges, withMap, i, j)
    }

    function MetaPos(i: nat, j: nat): nat
      requires i < |ranges|
    {
      MetaAt(start, ranges, withMap, i, j)
    }
  }

  /** Launcher and workers are those of the streaming baseline; an item's offset is where
its first chunk goes. `copied` records what landed for each chunk of each range, `used`
      the item and place of each chunk whose encryption was started. */
  datatype Pipe = Pipe(
    launcher: SP.Producer, next: nat, free: seq<nat>, slots: seq<Slot>, queue: seq<SP.Item>, closed: bool,
    workers: seq<SP.Writer>, img: seq<byte>, copied: map<(nat, nat), seq<byte>>, used: seq<(nat, nat)>, failed: bool)

  datatype Step =
    | Acquire
    | Launch                          // start the device copy and record its event
    | LaunchFails
    | GiveBack                        // return the slot of a failed launch, and close
    | Land(s: nat, data: seq<byte>)   // one more chunk of a started copy arrives
    | Push
    | Close
    | Pop(w: nat)
    | Seal(w: nat)                    // after the slot's event: encrypt the next chunk
    | SealFails(w: nat, tried: bool)  // the event, or the encryption if tried, reports an error
    | Release(w: nat)
    | Exit(w: nat)

  ghost predicate Init(cfg: Config, p: Pipe) {
    && p.launcher == SP.Ready && p.next == 0 && p.free == seq(cfg.nSlots, (i: nat) => i)
    && |p.slots| == cfg.nSlots && (forall s :: 0 <= s < |p.slots| ==> p.slots[s].work == None)
    && p.queue == [] && !p.closed && (forall w :: 0 <= w < |p.workers| ==> p.workers[w].Idle?)
    && p.copied == map[] && p.used == [] && !p.failed && FileSize(cfg.start, cfg.ranges, cfg.withMap) <= |p.img|
  }

  predicate Complete(cfg: Config, slot: Slot) {
    slot.work.Some? && slot.work.value < |cfg.items| && |slot.chunks| == cfg.items[slot.work.value].count
  }

  predicate Busy(p: Pipe, w: nat) {
    w < |p.workers| && p.workers[w].Writing? && p.workers[w].item.slot < |p.slots|
  }

  ghost predicate CanStep(cfg: Config, p: Pipe, step: Step) {
    match step
    case Acquire => p.launcher.Ready? && p.next < |cfg.items| && p.free != []
    case Launch =>
      && p.launcher.Filling? && p.launcher.slot < |p.slots| && p.next < |cfg.items|
      && cfg.items[p.next].range < |cfg.ranges|
    case LaunchFails => p.launcher.Filling?
    case GiveBack => p.launcher.Stopped?
    case Land(s, data) =>
      && s < |p.slots| && p.slots[s].work.Some? && p.slots[s].work.value < |cfg.items|
      && |p.slots[s].chunks| < cfg.items[p.slots[s].work.value].count && |data| == CHUNK
    case Push => p.launcher.Pushing? && |p.queue| < cfg.capacity
    case Close => p.launcher.Ready? && p.next >= |cfg.items|
    case Pop(w) => w < |p.workers| && p.workers[w].Idle? && p.queue != []
    case Seal(w) =>
      && Busy(p, w) && p.workers[w].item.index < |cfg.items|
      && var it, k := cfg.items[p.workers[w].item.index], p.workers[w].k;
      && k < it.count && Complete(cfg, p.slots[p.workers[w].item.slot]) && k < |p.slots[p.workers[w].item.slot].chunks|
      && it.range < |cfg.ranges| && CellFits(cfg, p.img, it.range, it.first + k)
    case SealFails(w, tried) =>
      Busy(p, w) && (tried ==> p.workers[w].item.index < |cfg.items| && p.workers[w].k < cfg.items[p.workers[w].item.index].count)
    case Release(w) => Busy(p, w) && p.workers[w].item.index < |cfg.items| && p.workers[w].k == cfg.items[p.workers[w].item.index].count
    case Exit(w) => w < |p.workers| && p.workers[w].Idle? && p.queue == [] && p.closed
  }

  predicate CellFits(cfg: Config, img: seq<byte>, i: nat, j: nat)
    requires i < |cfg.ranges|
  {
    cfg.CipherPos(i, j) + CHUNK <= cfg.MetaPos(i, j) && cfg.MetaPos(i, j) + META_BYTES <= |img|
  }

  function Blit(img: seq<byte>, at: nat, b: seq<byte>): (r: seq<byte>)
    requires at + |b| <= |img|
    ensures |r| == |img|
  {
    img[..at] + b + img[at + |b|..]
  }

  /** The cell of `data` under counter `iv`. */
  function Sealed(c: Cipher, iv: nat, data: seq<byte>): Cell {
    var sealed := c.seal(BuildIv(iv), data);
    Cell(sealed.0, PageMeta(BuildIv(iv), sealed.1))
  }

  /** The file with a cell's ciphertext and metadata entry in their places. */
  function Stored(cfg: Config, img: seq<byte>, i: nat, j: nat, cell: Cell): (r: seq<byte>)
    requires i < |cfg.ranges| && CellFits(cfg, img, i, j)
    ensures |r| == |img|
  {
    if |cell.cipher| == CHUNK && |MetaBytes(cell.meta)| == META_BYTES then
      Blit(Blit(img, cfg.CipherPos(i, j), cell.cipher), cfg.MetaPos(i, j), MetaBytes(cell.meta))
    else img
  }

  function After(cfg: Config, p: Pipe, step: Step): Pipe
    requires CanStep(cfg, p, step)
  {
    match step
    case Acquire => p.(launcher := SP.Filling(p.free[|p.free| - 1]), free := p.free[..|p.free| - 1])
    case Launch =>
      var it := cfg.items[p.next];
      p.(slots := p.slots[p.launcher.slot := Slot(Some(p.next), [])],
         launcher := SP.Pushing(SP.Item(p.next, cfg.CipherPos(it.range, it.first), p.launcher.slot)))
    case LaunchFails => p.(launcher := SP.Stopped(p.launcher.slot), failed := true)
    case GiveBack => p.(free := p.free + [p.launcher.slot], launcher := SP.Joining, closed := true)
    case Land(s, data) =>
      var slot := p.slots[s];
      var it := cfg.items[slot.work.value];
      p.(slots := p.slots[s := slot.(chunks := slot.chunks + [data])],
         copied := p.copied[(it.range, it.first + |slot.chunks|) := data])
    case Push => p.(queue := p.queue + [p.launcher.item], next := p.next + 1, launcher := SP.Ready)
    case Close => p.(launcher := SP.Joining, closed := true)
    case Pop(w) => p.(queue := p.queue[1..], workers := p.workers[w := SP.Writing(p.queue[0], 0)])
    case Seal(w) =>
      var item, k := p.workers[w].item, p.workers[w].k;
      var it := cfg.items[item.index];
      p.(img := Stored(cfg, p.img, it.range, it.first + k, Sealed(cfg.c, it.iv + k, p.slots[item.slot].chunks[k])),
         workers := p.workers[w := SP.Writing(item, k + 1)], used := p.used + [(item.index, k)])
    case SealFails(w, tried) =>
      p.(free := p.free + [p.workers[w].item.slot], workers := p.workers[w := SP.Idle],
         used := if tried then p.used + [(p.workers[w].item.index, p.workers[w].k)] else p.used, failed := true)
    case Release(w) => p.(free := p.free + [p.workers[w].item.slot], workers := p.workers[w := SP.Idle])
    case Exit(w) => p.(workers := p.workers[w := SP.Exited])
  }

  // ------------------------------------------------------------------ slots

  function Owners(p: Pipe, s: nat): nat {
    SP.Held(p.free, p.queue, p.launcher, p.workers, s)
  }

  /** Slots in circulation. */
  function Circulating(p: Pipe): nat {
    |p.free| + |p.queue| + SP.One(SP.HasSlot(p.launcher)) + SP.Busy(p.workers)
  }

  ghost predicate SlotsOk(cfg: Config, p: Pipe) {
    |p.slots| == cfg.nSlots && Circulating(p) == cfg.nSlots && forall s: nat :: Owners(p, s) == SP.One(s < cfg.nSlots)
  }

  /** No step loses a slot, frees it twice or gives it two owners. */
  lemma {:induction false} StepConservesSlots(cfg: Config, p: Pipe, step: Step, s: nat)
    requires CanStep(cfg, p, step)
    ensures Owners(After(cfg, p, step), s) == Owners(p, s)
    ensures Circulating(After(cfg, p, step)) == Circulating(p)
  {
    hide SP.OnStack, SP.InQueue, SP.AtWriters, SP.Busy, Stored, Sealed;
    var p' := After(cfg, p, step);
    match step
    case Acquire =>
      var n := |p.free| - 1;
      assert p.free == p.free[..n] + [p.free[n]];
      SP.OnStackAppend(p.free[..n], p.free[n], s);
    case GiveBack => SP.OnStackAppend(p.free, p.launcher.slot, s);
    case Push => SP.InQueueAppend(p.queue, p.launcher.item, s);
    case Pop(w) =>
      SP.InQueuePop(p.queue, s);
      SP.AtWritersUpdate(p.workers, w, p'.workers[w], s);
    case Seal(w) => SP.AtWritersUpdate(p.workers, w, p'.workers[w], s);
    case SealFails(w, _) =>
      SP.AtWritersUpdate(p.workers, w, SP.Idle, s);
      SP.OnStackAppend(p.free, p.workers[w].item.slot, s);
    case Release(w) =>
      SP.AtWritersUpdate(p.workers, w, SP.Idle, s);
      SP.OnStackAppend(p.free, p.workers[w].item.slot, s);
    case Exit(w) => SP.AtWritersUpdate(p.workers, w, SP.Exited, s);
    case _ =>
  }

  lemma {:induction false} SlotsKept(cfg: Config, p: Pipe, step: Step)
    requires SlotsOk(cfg, p) && CanStep(cfg, p, step)
    ensures SlotsOk(cfg, After(cfg, p, step))
  {
    var p' := After(cfg, p, step);
    forall s: nat ensures Owners(p', s) == SP.One(s < cfg.nSlots) {
      StepConservesSlots(cfg, p, step, s);
    }
    StepConservesSlots(cfg, p, step, 0);
    hide Owners, Circulating, Stored, Sealed;
  }

  predicate IsAt(p: Pipe, place: SP.Place, s: nat) {
    SP.IsAt(p.free, p.queue, p.launcher, p.workers, place, s)
  }

  /** A slot in two places would have two owners. */
  lemma {:induction false} OnePlace(cfg: Config, p: Pipe, a: SP.Place, b: SP.Place, s: nat)
    requires SlotsOk(cfg, p) && IsAt(p, a, s) && IsAt(p, b, s)
    ensures a == b && s < cfg.nSlots
  {
    assert Owners(p, s) <= 1;
    SP.OnePlace(p.free, p.queue, p.launcher, p.workers, a, b, s);
    SP.PlaceCounts(p.free, p.queue, p.launcher, p.workers, a, s);
  }

  // ------------------------------------------------------------- control flow

  /** Items taken from the queue so far. */
  function Popped(p: Pipe): int { p.next - |p.queue| }

  /** The queue holds consecutive items up to `next`; who has left has nothing to do. */
  ghost predicate FlowOk(cfg: Config, p: Pipe) {
    && p.next <= |cfg.items| && |p.queue| <= p.next && (p.closed <==> p.launcher.Joining?) && !p.launcher.Finished?
    && (p.launcher.Filling? ==> p.next < |cfg.items|)
    && (p.launcher.Pushing? ==> p.next < |cfg.items| && p.launcher.item.index == p.next)
    && (p.launcher.Stopped? ==> p.failed)
    && (p.launcher.Joining? && !p.failed ==> p.next == |cfg.items|)
    && (forall i :: 0 <= i < |p.queue| ==> p.queue[i].index == Popped(p) + i)
    && (forall w :: 0 <= w < |p.workers| && p.workers[w].Writing? ==> p.workers[w].item.index < Popped(p))
    && (forall w :: 0 <= w < |p.workers| && p.workers[w].Exited? ==> p.closed && p.queue == [])
    && (forall v, w :: 0 <= v < w < |p.workers| && p.workers[v].Writing? && p.workers[w].Writing? ==>
          p.workers[v].item.index != p.workers[w].item.index)
  }

  lemma {:induction false} FlowKept(cfg: Config, p: Pipe, step: Step)
    requires FlowOk(cfg, p) && CanStep(cfg, p, step)
    ensures FlowOk(cfg, After(cfg, p, step))
  {
    hide Stored, Sealed, CellFits, Complete;
  }

  // ------------------------------------------------------------------- shape

  /** An item in hand: its slot serves it and holds no more chunks than it has. */
  predicate InHand(cfg: Config, slots: seq<Slot>, item: SP.Item) {
    && item.index < |cfg.items| && item.slot < |slots| && slots[item.slot].work == Some(item.index)
    && |slots[item.slot].chunks| <= cfg.items[item.index].count
  }

  /** What lets the threads go on, failures or not. */
  ghost predicate ShapeOk(cfg: Config, p: Pipe) {
    && FileSize(cfg.start, cfg.ranges, cfg.withMap) <= |p.img|
    && (p.launcher.Pushing? ==> InHand(cfg, p.slots, p.launcher.item))
    && (forall i :: 0 <= i < |p.queue| ==> InHand(cfg, p.slots, p.queue[i]))
    && (forall w :: 0 <= w < |p.workers| && p.workers[w].Writing? ==>
          InHand(cfg, p.slots, p.workers[w].item) && p.workers[w].k <= cfg.items[p.workers[w].item.index].count)
  }

  lemma {:induction false} ShapeKept(cfg: Config, p: Pipe, step: Step)
    requires SlotsOk(cfg, p) && FlowOk(cfg, p) && ShapeOk(cfg, p) && CanStep(cfg, p, step)
    ensures ShapeOk(cfg, After(cfg, p, step))
  {
    if step.Launch? {
      LaunchApart(cfg, p);
    }
    hide SlotsOk, Stored, Sealed, CellFits, FileSize, CipherAt;
  }

  /** Chunks are sealed once each, in order within their item. */
  ghost predicate UsedOk(cfg: Config, p: Pipe) {
    && (forall i :: 0 <= i < |p.used| ==>
          p.used[i].0 < Popped(p) <= |cfg.items| && p.used[i].1 < cfg.items[p.used[i].0].count)
    && (forall i, w :: 0 <= i < |p.used| && 0 <= w < |p.workers| && p.workers[w].Writing? && p.workers[w].item.index == p.used[i].0 ==>
          p.used[i].1 < p.workers[w].k)
    && (forall i, j :: 0 <= i < j < |p.used| ==> p.used[i] != p.used[j])
  }

  lemma {:induction false} UsedKept(cfg: Config, p: Pipe, step: Step)
    requires FlowOk(cfg, p) && UsedOk(cfg, p) && CanStep(cfg, p, step)
    ensures UsedOk(cfg, After(cfg, p, step))
  {
    hide Stored, Sealed, CellFits, Complete;
  }

  // ----------------------------------------------------------------- content

  type Copies = map<(nat, nat), seq<byte>>

  function KeyOf(cfg: Config, x: nat, q: nat): (nat, nat)
    requires x < |cfg.items|
  {
    (cfg.items[x].range, cfg.items[x].first + q)
  }

  /** The slot of an item in hand holds what has landed of it, as recorded. */
  ghost predicate ItemOk(cfg: Config, slots: seq<Slot>, copied: Copies, item: SP.Item) {
    && InHand(cfg, slots, item)
    && forall q :: 0 <= q < |slots[item.slot].chunks| ==>
         KeyOf(cfg, item.index, q) in copied && copied[KeyOf(cfg, item.index, q)] == slots[item.slot].chunks[q]
         && |slots[item.slot].chunks[q]| == CHUNK
  }

  /** Chunk `j` of range `i` is in the file, sealed from what landed of it under the counter
      of its place. */
  ghost predicate CellIn(cfg: Config, img: seq<byte>, copied: Copies, i: nat, j: nat) {
    && i < |cfg.ranges| && (i, j) in copied && CellFits(cfg, img, i, j)
    && ReadCell(img, cfg.start, cfg.ranges, cfg.withMap, i, j) == Sealed(cfg.c, cfg.base + ChunksBefore(cfg.ranges, i) + j, copied[(i, j)])
  }

  ghost predicate ItemIn(cfg: Config, img: seq<byte>, copied: Copies, x: nat, k: nat)
    requires x < |cfg.items|
  {
    forall q: nat :: q < k ==> ChunkIn(cfg, img, copied, x, q)
  }

  ghost predicate ChunkIn(cfg: Config, img: seq<byte>, copied: Copies, x: nat, q: nat)
    requires x < |cfg.items|
  {
    CellIn(cfg, img, copied, cfg.items[x].range, cfg.items[x].first + q)
  }

  predicate AtSomeWorker(workers: seq<SP.Writer>, x: nat) {
    exists w :: 0 <= w < |workers| && workers[w].Writing? && workers[w].item.index == x
  }

  /** Items whose copy has been launched. */
  function Launched(p: Pipe): nat {
    p.next + if p.launcher.Pushing? then 1 else 0
  }

  /** No two slots serve one item; a slot's landed chunks are no more than its item has. */
  ghost predicate WorkOk(cfg: Config, p: Pipe) {
    && (forall s :: 0 <= s < |p.slots| && p.slots[s].work.Some? ==>
          p.slots[s].work.value < Launched(p) <= |cfg.items| && |p.slots[s].chunks| <= cfg.items[p.slots[s].work.value].count)
    && (forall s, t :: 0 <= s < t < |p.slots| && p.slots[s].work.Some? ==> p.slots[s].work != p.slots[t].work)
  }

  /** A slot at rest has nothing left to land. */
  predicate Rests(cfg: Config, slots: seq<Slot>, s: nat) {
    s < |slots| && (slots[s].work.None? || Complete(cfg, slots[s]))
  }

  ghost predicate RestOk(cfg: Config, p: Pipe) {
    && (forall i :: 0 <= i < |p.free| ==> Rests(cfg, p.slots, p.free[i]))
    && (p.launcher.Filling? ==> Rests(cfg, p.slots, p.launcher.slot))
  }

  ghost predicate HandsOk(cfg: Config, p: Pipe) {
    && (p.launcher.Pushing? ==> ItemOk(cfg, p.slots, p.copied, p.launcher.item))
    && (forall i :: 0 <= i < |p.queue| ==> ItemOk(cfg, p.slots, p.copied, p.queue[i]))
    && (forall w :: 0 <= w < |p.workers| && p.workers[w].Writing? ==> WorkerOk(cfg, p.slots, p.copied, p.img, p.workers[w].item, p.workers[w].k))
  }

  ghost predicate WorkerOk(cfg: Config, slots: seq<Slot>, copied: Copies, img: seq<byte>, item: SP.Item, k: nat) {
    && ItemOk(cfg, slots, copied, item) && k <= cfg.items[item.index].count
    && (k > 0 ==> Complete(cfg, slots[item.slot])) && ItemIn(cfg, img, copied, item.index, k)
  }

  ghost predicate DoneOk(cfg: Config, p: Pipe) {
    Popped(p) <= |cfg.items| && forall x: nat :: x < Popped(p) && !AtSomeWorker(p.workers, x) ==> ItemIn(cfg, p.img, p.copied, x, cfg.items[x].count)
  }

  ghost predicate Content(cfg: Config, p: Pipe) {
    && FileSize(cfg.start, cfg.ranges, cfg.withMap) <= |p.img|
    && WorkOk(cfg, p) && RestOk(cfg, p) && HandsOk(cfg, p) && DoneOk(cfg, p)
  }

  ghost predicate Inv(cfg: Config, p: Pipe) {
    cfg.Valid() && SlotsOk(cfg, p) && FlowOk(cfg, p) && ShapeOk(cfg, p) && UsedOk(cfg, p) && (!p.failed ==> Content(cfg, p))
  }

  /** Different items have different chunks. */
  lemma {:induction false} ItemsApart(cfg: Config, x: nat, y: nat, i: nat, j: nat)
    requires cfg.Valid() && x < |cfg.items| && y < |cfg.items| && Has(cfg.items[x], i, j) && Has(cfg.items[y], i, j)
    ensures x == y
  {
    hide AllWhole, SomeHas, ChunksBefore;
  }

  lemma {:induction false} KeysApart(cfg: Config, x: nat, q: nat, y: nat, n: nat)
    requires cfg.Valid() && x < |cfg.items| && y < |cfg.items| && q < cfg.items[x].count && n < cfg.items[y].count
    ensures KeyOf(cfg, x, q) == KeyOf(cfg, y, n) ==> x == y && q == n
  {
    if KeyOf(cfg, x, q) == KeyOf(cfg, y, n) {
      ItemsApart(cfg, x, y, cfg.items[x].range, cfg.items[x].first + q);
    }
    hide Config.Valid;
  }

  lemma {:induction false} ItemPlace(cfg: Config, x: nat, q: nat)
    requires cfg.Valid() && x < |cfg.items| && q < cfg.items[x].count
    ensures var it := cfg.items[x];
            && it.range < |cfg.ranges| && cfg.ranges[it.range].length % CHUNK == 0 && it.first + q < cfg.ranges[it.range].length / CHUNK
            && it.iv + q == cfg.base + ChunksBefore(cfg.ranges, it.range) + (it.first + q) && Has(it, it.range, it.first + q)
  {
    hide SomeHas, ChunksBefore;
  }

  // ------------------------------------------------- steps that move an item

  lemma {:induction false} AcquireKeeps(cfg: Config, p: Pipe)
    requires Inv(cfg, p) && !p.failed && CanStep(cfg, p, Acquire)
    ensures Content(cfg, After(cfg, p, Acquire))
  {
    hide ItemOk, WorkerOk, ItemIn, Complete, SlotsOk;
  }

  lemma {:induction false} PushKeeps(cfg: Config, p: Pipe)
    requires Inv(cfg, p) && !p.failed && CanStep(cfg, p, Push)
    ensures Content(cfg, After(cfg, p, Push))
  {
    hide ItemOk, ItemIn, Complete, SlotsOk, Rests;
  }

  lemma {:induction false} WorkerStays(ws: seq<SP.Writer>, w: nat, y: SP.Writer, x: nat)
    requires w < |ws| && AtSomeWorker(ws, x) && !(ws[w].Writing? && ws[w].item.index == x)
    ensures AtSomeWorker(ws[w := y], x)
  {
    var v :| 0 <= v < |ws| && ws[v].Writing? && ws[v].item.index == x;
    assert ws[w := y][v] == ws[v];
  }

  lemma {:induction false} PopKeeps(cfg: Config, p: Pipe, w: nat)
    requires Inv(cfg, p) && !p.failed && CanStep(cfg, p, Pop(w))
    ensures Content(cfg, After(cfg, p, Pop(w)))
  {
    var p' := After(cfg, p, Pop(w));
    assert ItemOk(cfg, p.slots, p.copied, p.queue[0]);
    assert p.queue[0].index == Popped(p);
    assert p'.workers[w].Writing? && p'.workers[w].item.index == Popped(p);
    assert AtSomeWorker(p'.workers, Popped(p));
    forall x: nat | AtSomeWorker(p.workers, x) ensures AtSomeWorker(p'.workers, x) {
      WorkerStays(p.workers, w, p'.workers[w], x);
    }
    hide ItemOk, Complete, SlotsOk, Rests, AtSomeWorker;
    assert ItemIn(cfg, p.img, p.copied, p.queue[0].index, 0);
    hide ItemIn;
  }

  lemma {:induction false} ReleaseKeeps(cfg: Config, p: Pipe, w: nat)
    requires Inv(cfg, p) && !p.failed && CanStep(cfg, p, Release(w))
    ensures Content(cfg, After(cfg, p, Release(w)))
  {
    var p' := After(cfg, p, Release(w));
    var item := p.workers[w].item;
    assert WorkerOk(cfg, p.slots, p.copied, p.img, item, p.workers[w].k);
    assert p.workers[w].k > 0 by { assert cfg.items[item.index].count > 0; }
    forall x: nat | x != item.index && AtSomeWorker(p.workers, x) ensures AtSomeWorker(p'.workers, x) {
      WorkerStays(p.workers, w, SP.Idle, x);
    }
    hide ItemOk, Complete, SlotsOk, AtSomeWorker, ItemIn;
  }

  lemma {:induction false} ExitKeeps(cfg: Config, p: Pipe, w: nat)
    requires Inv(cfg, p) && !p.failed && CanStep(cfg, p, Exit(w))
    ensures Content(cfg, After(cfg, p, Exit(w)))
  {
    var p' := After(cfg, p, Exit(w));
    forall x: nat | AtSomeWorker(p.workers, x) ensures AtSomeWorker(p'.workers, x) {
      WorkerStays(p.workers, w, SP.Exited, x);
    }
    hide ItemOk, Complete, SlotsOk, AtSomeWorker, ItemIn;
  }

  // ----------------------------------------------------- launching and landing

  lemma {:induction false} OtherSlot(cfg: Config, p: Pipe, a: SP.Place, s: nat, b: SP.Place, t: nat)
    requires SlotsOk(cfg, p) && IsAt(p, a, s) && IsAt(p, b, t) && a != b
    ensures s != t
  {
    if s == t {
      OnePlace(cfg, p, a, b, s);
    }
  }

  /** The launcher's slot is nobody else's. */
  lemma {:induction false} LaunchApart(cfg: Config, p: Pipe)
    requires SlotsOk(cfg, p) && p.launcher.Filling?
    ensures forall i :: 0 <= i < |p.free| ==> p.free[i] != p.launcher.slot
    ensures forall i :: 0 <= i < |p.queue| ==> p.queue[i].slot != p.launcher.slot
    ensures forall w :: 0 <= w < |p.workers| && p.workers[w].Writing? ==> p.workers[w].item.slot != p.launcher.slot
  {
    hide SlotsOk;
    var s := p.launcher.slot;
    forall i | 0 <= i < |p.free| ensures p.free[i] != s {
      OtherSlot(cfg, p, SP.Free(i), p.free[i], SP.AtHand, s);
    }
    forall i | 0 <= i < |p.queue| ensures p.queue[i].slot != s {
      OtherSlot(cfg, p, SP.Queued(i), p.queue[i].slot, SP.AtHand, s);
    }
    forall w | 0 <= w < |p.workers| && p.workers[w].Writing? ensures p.workers[w].item.slot != s {
      OtherSlot(cfg, p, SP.AtWriter(w), p.workers[w].item.slot, SP.AtHand, s);
    }
  }

  lemma {:induction false} LaunchKeepsHands(cfg: Config, p: Pipe)
    requires Inv(cfg, p) && !p.failed && CanStep(cfg, p, Launch)
    ensures HandsOk(cfg, After(cfg, p, Launch))
  {
    LaunchApart(cfg, p);
    hide ItemIn, SlotsOk, Config.Valid, FlowOk, WorkOk, RestOk, DoneOk;
  }

  lemma {:induction false} LaunchKeeps(cfg: Config, p: Pipe)
    requires Inv(cfg, p) && !p.failed && CanStep(cfg, p, Launch)
    ensures Content(cfg, After(cfg, p, Launch))
  {
    LaunchApart(cfg, p);
    LaunchKeepsHands(cfg, p);
    hide ItemIn, SlotsOk, Config.Valid, AtSomeWorker, HandsOk;
  }

  /** A slot that still lands chunks belongs to an item in hand. */
  lemma {:induction false} LandingIsHeld(cfg: Config, p: Pipe, s: nat)
    requires SlotsOk(cfg, p) && FlowOk(cfg, p) && !p.failed && Content(cfg, p) && s < |p.slots| && !Rests(cfg, p.slots, s)
    ensures p.slots[s].work.Some? && (p.slots[s].work.value >= Popped(p) || AtSomeWorker(p.workers, p.slots[s].work.value))
  {
    assert Owners(p, s) == 1;
    var a := SP.SomePlace(p.free, p.queue, p.launcher, p.workers, s);
    match a
    case Free(i) =>
    case Queued(i) => assert ItemOk(cfg, p.slots, p.copied, p.queue[i]);
    case AtHand =>
    case AtWriter(w) => assert ItemOk(cfg, p.slots, p.copied, p.workers[w].item);
  }

  /** A chunk that lands is of no other item. */
  lemma {:induction false} LandKeepsItem(cfg: Config, p: Pipe, s: nat, data: seq<byte>, item: SP.Item)
    requires Inv(cfg, p) && !p.failed && CanStep(cfg, p, Land(s, data)) && ItemOk(cfg, p.slots, p.copied, item)
    ensures var p' := After(cfg, p, Land(s, data)); ItemOk(cfg, p'.slots, p'.copied, item)
  {
    var x, n := p.slots[s].work.value, |p.slots[s].chunks|;
    assert item.slot != s ==> item.index != x;
    forall q | 0 <= q < |p.slots[item.slot].chunks| ensures KeyOf(cfg, item.index, q) == KeyOf(cfg, x, n) ==> item.index == x && q == n {
      KeysApart(cfg, item.index, q, x, n);
    }
    hide SlotsOk, FlowOk, RestOk, HandsOk, DoneOk, Config.Valid;
  }

  lemma {:induction false} LandKeepsIn(cfg: Config, p: Pipe, s: nat, data: seq<byte>, y: nat, k: nat)
    requires Inv(cfg, p) && !p.failed && CanStep(cfg, p, Land(s, data))
    requires y < |cfg.items| && k <= cfg.items[y].count && ItemIn(cfg, p.img, p.copied, y, k) && (k > 0 ==> y != p.slots[s].work.value)
    ensures ItemIn(cfg, p.img, After(cfg, p, Land(s, data)).copied, y, k)
  {
    var x, n := p.slots[s].work.value, |p.slots[s].chunks|;
    var copied := After(cfg, p, Land(s, data)).copied;
    forall q: nat | q < k ensures ChunkIn(cfg, p.img, copied, y, q) {
      assert ChunkIn(cfg, p.img, p.copied, y, q);
      KeysApart(cfg, y, q, x, n);
    }
    hide SlotsOk, FlowOk, Content, Config.Valid, ChunkIn;
  }

  lemma {:induction false} LandKeeps(cfg: Config, p: Pipe, s: nat, data: seq<byte>)
    requires Inv(cfg, p) && !p.failed && CanStep(cfg, p, Land(s, data))
    ensures Content(cfg, After(cfg, p, Land(s, data)))
  {
    var p' := After(cfg, p, Land(s, data));
    LandingIsHeld(cfg, p, s);
    LandKeepsHands(cfg, p, s, data);
    forall x: nat | x < Popped(p') && !AtSomeWorker(p'.workers, x) ensures ItemIn(cfg, p'.img, p'.copied, x, cfg.items[x].count) {
      LandKeepsIn(cfg, p, s, data, x, cfg.items[x].count);
    }
    assert RestOk(cfg, p') && WorkOk(cfg, p') by {
      hide HandsOk, DoneOk, Config.Valid, SlotsOk;
    }
    hide RestOk, WorkOk, HandsOk, ItemIn, SlotsOk, Config.Valid;
  }

  lemma {:induction false} LandKeepsHands(cfg: Config, p: Pipe, s: nat, data: seq<byte>)
    requires Inv(cfg, p) && !p.failed && CanStep(cfg, p, Land(s, data))
    ensures HandsOk(cfg, After(cfg, p, Land(s, data)))
  {
    var p' := After(cfg, p, Land(s, data));
    if p.launcher.Pushing? {
      LandKeepsItem(cfg, p, s, data, p.launcher.item);
    }
    forall i | 0 <= i < |p.queue| ensures ItemOk(cfg, p'.slots, p'.copied, p'.queue[i]) {
      LandKeepsItem(cfg, p, s, data, p.queue[i]);
    }
    forall w | 0 <= w < |p.workers| && p.workers[w].Writing?
      ensures WorkerOk(cfg, p'.slots, p'.copied, p'.img, p'.workers[w].item, p'.workers[w].k)
    {
      var item, k := p.workers[w].item, p.workers[w].k;
      assert WorkerOk(cfg, p.slots, p.copied, p.img, item, k);
      LandKeepsItem(cfg, p, s, data, item);
      assert item.slot == s ==> k == 0;
      assert item.slot != s ==> item.index != p.slots[s].work.value;
      LandKeepsIn(cfg, p, s, data, item.index, k);
    }
    hide ItemOk, WorkerOk, Inv;
  }

  // ------------------------------------------------------------------ sealing

  lemma {:induction false} BlitReads(img: seq<byte>, at: nat, b: seq<byte>, lo: nat, hi: nat)
    requires at + |b| <= |img| && lo <= hi <= |img|
    ensures lo == at && hi == at + |b| ==> Blit(img, at, b)[lo..hi] == b
    ensures hi <= at || at + |b| <= lo ==> Blit(img, at, b)[lo..hi] == img[lo..hi]
  {
    var r := Blit(img, at, b);
    assert forall k :: 0 <= k < |img| ==> r[k] == if at <= k < at + |b| then b[k - at] else img[k];
    hide Blit;
  }

  /** Cells of the cipher have the sizes the layout gives them. */
  lemma {:induction false} SealedSizes(c: Cipher, iv: nat, data: seq<byte>)
    requires c.Sound() && |data| == CHUNK
    ensures var cell := Sealed(c, iv, data);
            |cell.cipher| == CHUNK && |MetaBytes(cell.meta)| == META_BYTES && ParseMeta(MetaBytes(cell.meta)) == cell.meta
  {
    var m := Sealed(c, iv, data).meta;
    MetaRoundTrip(m);
    hide BuildIv;
  }

  /** A stored cell is read back. */
  lemma {:induction false} StoredReads(cfg: Config, img: seq<byte>, i: nat, j: nat, cell: Cell)
    requires i < |cfg.ranges| && CellFits(cfg, img, i, j)
    requires |cell.cipher| == CHUNK && |MetaBytes(cell.meta)| == META_BYTES && ParseMeta(MetaBytes(cell.meta)) == cell.meta
    ensures CellFits(cfg, Stored(cfg, img, i, j, cell), i, j)
    ensures ReadCell(Stored(cfg, img, i, j, cell), cfg.start, cfg.ranges, cfg.withMap, i, j) == cell
  {
    var at, metaAt := cfg.CipherPos(i, j), cfg.MetaPos(i, j);
    var mid := Blit(img, at, cell.cipher);
    BlitReads(img, at, cell.cipher, at, at + CHUNK);
    BlitReads(mid, metaAt, MetaBytes(cell.meta), metaAt, metaAt + META_BYTES);
    BlitReads(mid, metaAt, MetaBytes(cell.meta), at, at + CHUNK);
    hide Blit, MetaBytes, ParseMeta, CipherAt, MetaAt;
  }

  /** Places of two cells do not meet. */
  lemma {:induction false} PlacesApart(cfg: Config, i: nat, j: nat, k: nat, l: nat)
    requires cfg.Valid() && i < |cfg.ranges| && k < |cfg.ranges| && (i, j) != (k, l)
    requires j < cfg.ranges[i].length / CHUNK && l < cfg.ranges[k].length / CHUNK
    ensures cfg.CipherPos(k, l) + CHUNK <= cfg.CipherPos(i, j) || cfg.CipherPos(i, j) + CHUNK <= cfg.CipherPos(k, l)
    ensures cfg.MetaPos(k, l) + META_BYTES <= cfg.CipherPos(i, j) || cfg.CipherPos(i, j) + CHUNK <= cfg.MetaPos(k, l)
    ensures cfg.CipherPos(k, l) + CHUNK <= cfg.MetaPos(i, j) || cfg.MetaPos(i, j) + META_BYTES <= cfg.CipherPos(k, l)
    ensures cfg.MetaPos(k, l) + META_BYTES <= cfg.MetaPos(i, j) || cfg.MetaPos(i, j) + META_BYTES <= cfg.MetaPos(k, l)
  {
    hide Covered;
    if i < k || (i == k && j < l) {
      OrderedApart(cfg, i, j, k, l);
    } else {
      OrderedApart(cfg, k, l, i, j);
    }
  }

  lemma {:induction false} OrderedApart(cfg: Config, i: nat, j: nat, k: nat, l: nat)
    requires cfg.Valid() && i < |cfg.ranges| && k < |cfg.ranges| && (i < k || (i == k && j < l))
    requires j < cfg.ranges[i].length / CHUNK && l < cfg.ranges[k].length / CHUNK
    ensures cfg.CipherPos(i, j) + CHUNK <= cfg.CipherPos(k, l) && cfg.MetaPos(i, j) + META_BYTES <= cfg.MetaPos(k, l)
    ensures cfg.CipherPos(i, j) + CHUNK <= cfg.MetaPos(k, l)
    ensures cfg.MetaPos(i, j) + META_BYTES <= cfg.CipherPos(k, l) || cfg.CipherPos(k, l) + CHUNK <= cfg.MetaPos(i, j)
  {
    hide Covered;
    CellsApart(cfg.start, cfg.ranges, cfg.withMap, i, j, k, l);
    CipherBeforeMeta(cfg.start, cfg.ranges, cfg.withMap, k, l, i, j);
  }

  lemma {:induction false} CipherBeforeMeta(start: nat, ranges: seq<Range>, withMap: bool, k: nat, l: nat, i: nat, j: nat)
    requires k < |ranges| && ranges[k].length % CHUNK == 0 && l < ranges[k].length / CHUNK
    ensures CipherAt(start, ranges, withMap, k, l) + CHUNK <= MetaAt(start, ranges, withMap, k, 0)
    ensures i == k ==> CipherAt(start, ranges, withMap, k, l) + CHUNK <= MetaAt(start, ranges, withMap, i, j)
  {
  }

  /** Storing a cell leaves every other cell as it is. */
  lemma {:induction false} StoredApart(cfg: Config, img: seq<byte>, i: nat, j: nat, cell: Cell, k: nat, l: nat)
    requires cfg.Valid() && i < |cfg.ranges| && k < |cfg.ranges| && (i, j) != (k, l)
    requires j < cfg.ranges[i].length / CHUNK && l < cfg.ranges[k].length / CHUNK
    requires CellFits(cfg, img, i, j) && CellFits(cfg, img, k, l)
    ensures CellFits(cfg, Stored(cfg, img, i, j, cell), k, l)
    ensures ReadCell(Stored(cfg, img, i, j, cell), cfg.start, cfg.ranges, cfg.withMap, k, l)
         == ReadCell(img, cfg.start, cfg.ranges, cfg.withMap, k, l)
  {
    hide Blit, MetaBytes, CipherAt, MetaAt, Covered, ParseMeta;
    PlacesApart(cfg, i, j, k, l);
    hide Config.Valid;
    if |cell.cipher| == CHUNK && |MetaBytes(cell.meta)| == META_BYTES {
      var at, metaAt, lo, metaLo := cfg.CipherPos(i, j), cfg.MetaPos(i, j), cfg.CipherPos(k, l), cfg.MetaPos(k, l);
      TwoBlits(img, at, cell.cipher, metaAt, MetaBytes(cell.meta), lo, lo + CHUNK);
      TwoBlits(img, at, cell.cipher, metaAt, MetaBytes(cell.meta), metaLo, metaLo + META_BYTES);
    }
  }

  lemma {:induction false} TwoBlits(img: seq<byte>, at: nat, b: seq<byte>, at2: nat, b2: seq<byte>, lo: nat, hi: nat)
    requires at + |b| <= |img| && at2 + |b2| <= |img| && lo <= hi <= |img|
    requires hi <= at || at + |b| <= lo
    requires hi <= at2 || at2 + |b2| <= lo
    ensures Blit(Blit(img, at, b), at2, b2)[lo..hi] == img[lo..hi]
  {
    hide Blit;
    BlitReads(img, at, b, lo, hi);
    BlitReads(Blit(img, at, b), at2, b2, lo, hi);
  }

  /** Sealing chunk `n` of item `x` keeps what is in the file of other chunks. */
  lemma {:induction false} SealKeepsIn(cfg: Config, img: seq<byte>, copied: Copies, x: nat, n: nat, cell: Cell, y: nat, k: nat)
    requires cfg.Valid() && x < |cfg.items| && n < cfg.items[x].count && y < |cfg.items| && k <= cfg.items[y].count
    requires cfg.items[x].range < |cfg.ranges| && CellFits(cfg, img, cfg.items[x].range, cfg.items[x].first + n)
    requires ItemIn(cfg, img, copied, y, k) && (x == y ==> k <= n)
    ensures ItemIn(cfg, Stored(cfg, img, cfg.items[x].range, cfg.items[x].first + n, cell), copied, y, k)
  {
    hide Stored, ReadCell, Sealed, CellFits, Config.Valid;
    var img' := Stored(cfg, img, cfg.items[x].range, cfg.items[x].first + n, cell);
    ItemPlace(cfg, x, n);
    forall q: nat | q < k ensures ChunkIn(cfg, img', copied, y, q) {
      assert ChunkIn(cfg, img, copied, y, q);
      ItemPlace(cfg, y, q);
      KeysApart(cfg, y, q, x, n);
      StoredApart(cfg, img, cfg.items[x].range, cfg.items[x].first + n, cell, cfg.items[y].range, cfg.items[y].first + q);
    }
  }

  lemma {:induction false} SoundCipher(cfg: Config)
    requires cfg.Valid()
    ensures cfg.c.Sound()
  {
    hide Cipher.Sound, Covered, AllWhole;
  }

  lemma {:induction false} SealPutsCell(cfg: Config, img: seq<byte>, copied: Copies, i: nat, j: nat, iv: nat)
    requires cfg.c.Sound() && i < |cfg.ranges| && CellFits(cfg, img, i, j) && iv == cfg.base + ChunksBefore(cfg.ranges, i) + j
    requires (i, j) in copied && |copied[(i, j)]| == CHUNK
    ensures CellIn(cfg, Stored(cfg, img, i, j, Sealed(cfg.c, iv, copied[(i, j)])), copied, i, j)
  {
    hide Stored, ReadCell, Sealed, CellFits, MetaBytes, ParseMeta, ChunksBefore;
    SealedSizes(cfg.c, iv, copied[(i, j)]);
    hide Cipher.Sound;
    StoredReads(cfg, img, i, j, Sealed(cfg.c, iv, copied[(i, j)]));
  }

  /** The sealed chunk is where the layout wants it, under the counter of its place. */
  lemma {:induction false} SealPuts(cfg: Config, img: seq<byte>, copied: Copies, x: nat, n: nat, data: seq<byte>)
    requires cfg.Valid() && x < |cfg.items| && n < cfg.items[x].count
    requires cfg.items[x].range < |cfg.ranges| && CellFits(cfg, img, cfg.items[x].range, cfg.items[x].first + n)
    requires KeyOf(cfg, x, n) in copied && copied[KeyOf(cfg, x, n)] == data && |data| == CHUNK
    ensures ChunkIn(cfg, Stored(cfg, img, cfg.items[x].range, cfg.items[x].first + n, Sealed(cfg.c, cfg.items[x].iv + n, data)), copied, x, n)
  {
    hide Config.Valid, Stored, Sealed, CellFits, CellIn, Cipher.Sound, ChunksBefore, Has, MetaBytes, CipherAt, MetaAt;
    SoundCipher(cfg);
    ItemPlace(cfg, x, n);
    assert KeyOf(cfg, x, n) == (cfg.items[x].range, cfg.items[x].first + n);
    SealPutsCell(cfg, img, copied, cfg.items[x].range, cfg.items[x].first + n, cfg.items[x].iv + n);
  }

  /** The sealing worker has one chunk more in the file. */
  lemma {:induction false} SealOwn(cfg: Config, slots: seq<Slot>, copied: Copies, img: seq<byte>, item: SP.Item, n: nat)
    requires cfg.Valid() && WorkerOk(cfg, slots, copied, img, item, n) && n < cfg.items[item.index].count && Complete(cfg, slots[item.slot])
    requires var it := cfg.items[item.index]; it.range < |cfg.ranges| && CellFits(cfg, img, it.range, it.first + n)
    ensures var it := cfg.items[item.index];
            WorkerOk(cfg, slots, copied, Stored(cfg, img, it.range, it.first + n, Sealed(cfg.c, it.iv + n, slots[item.slot].chunks[n])), item, n + 1)
  {
    var x, data := item.index, slots[item.slot].chunks[n];
    hide Stored, Sealed, Config.Valid, CellFits;
    SealKeepsIn(cfg, img, copied, x, n, Sealed(cfg.c, cfg.items[x].iv + n, data), x, n);
    SealPuts(cfg, img, copied, x, n, data);
    hide ChunkIn;
  }

  /** The other workers' chunks stay. */
  lemma {:induction false} SealOther(cfg: Config, p: Pipe, w: nat, v: nat)
    requires Inv(cfg, p) && !p.failed && CanStep(cfg, p, Seal(w)) && v < |p.workers| && v != w && p.workers[v].Writing?
    ensures var p' := After(cfg, p, Seal(w)); WorkerOk(cfg, p'.slots, p'.copied, p'.img, p.workers[v].item, p.workers[v].k)
  {
    hide ItemIn, ItemOk, Stored, Sealed, SlotsOk, DoneOk, RestOk, WorkOk, CellFits;
    var item, n := p.workers[w].item, p.workers[w].k;
    var cell := Sealed(cfg.c, cfg.items[item.index].iv + n, p.slots[item.slot].chunks[n]);
    assert WorkerOk(cfg, p.slots, p.copied, p.img, p.workers[v].item, p.workers[v].k);
    OtherItem(cfg, p, w, v);
    SealKeepsIn(cfg, p.img, p.copied, item.index, n, cell, p.workers[v].item.index, p.workers[v].k);
    hide Config.Valid, HandsOk;
  }

  lemma {:induction false} SealDone(cfg: Config, p: Pipe, w: nat, y: nat)
    requires Inv(cfg, p) && !p.failed && CanStep(cfg, p, Seal(w))
    requires var p' := After(cfg, p, Seal(w)); y < Popped(p') <= |cfg.items| && !AtSomeWorker(p'.workers, y)
    ensures var p' := After(cfg, p, Seal(w)); ItemIn(cfg, p'.img, p'.copied, y, cfg.items[y].count)
  {
    var p' := After(cfg, p, Seal(w));
    var item, n := p.workers[w].item, p.workers[w].k;
    var cell := Sealed(cfg.c, cfg.items[item.index].iv + n, p.slots[item.slot].chunks[n]);
    assert p'.workers[w].Writing? && p'.workers[w].item.index == item.index;
    assert y != item.index;
    if AtSomeWorker(p.workers, y) {
      WorkerStays(p.workers, w, p'.workers[w], y);
    }
    hide AtSomeWorker;
    SealKeepsIn(cfg, p.img, p.copied, item.index, n, cell, y, cfg.items[y].count);
    hide ItemIn, Stored, Sealed, Config.Valid, SlotsOk, HandsOk, RestOk, WorkOk, CellFits;
  }

  lemma {:induction false} SealHands(cfg: Config, p: Pipe, w: nat)
    requires Inv(cfg, p) && !p.failed && CanStep(cfg, p, Seal(w))
    ensures HandsOk(cfg, After(cfg, p, Seal(w)))
  {
    hide ItemOk, ItemIn, SlotsOk, FlowOk, ShapeOk, UsedOk, WorkOk, RestOk, DoneOk, Stored, Sealed;
    assert cfg.Valid();
    hide Config.Valid;
    var p' := After(cfg, p, Seal(w));
    assert WorkerOk(cfg, p.slots, p.copied, p.img, p.workers[w].item, p.workers[w].k);
    SealOwn(cfg, p.slots, p.copied, p.img, p.workers[w].item, p.workers[w].k);
    forall v | 0 <= v < |p.workers| && v != w && p.workers[v].Writing?
      ensures WorkerOk(cfg, p'.slots, p'.copied, p'.img, p'.workers[v].item, p'.workers[v].k)
    {
      SealOther(cfg, p, w, v);
    }
    hide WorkerOk, Complete, CellFits;
  }

  lemma {:induction false} SealKeeps(cfg: Config, p: Pipe, w: nat)
    requires Inv(cfg, p) && !p.failed && CanStep(cfg, p, Seal(w))
    ensures Content(cfg, After(cfg, p, Seal(w)))
  {
    var p' := After(cfg, p, Seal(w));
    SealHands(cfg, p, w);
    hide HandsOk;
    assert Popped(p') <= |cfg.items|;
    forall y: nat | y < Popped(p') && !AtSomeWorker(p'.workers, y) ensures ItemIn(cfg, p'.img, p'.copied, y, cfg.items[y].count) {
      SealDone(cfg, p, w, y);
    }
    hide ItemIn, SlotsOk, Config.Valid, Stored, Sealed, Complete, CellFits, AtSomeWorker, Rests;
  }

  /** Two workers never have the same item. */
  lemma {:induction false} OtherItem(cfg: Config, p: Pipe, w: nat, v: nat)
    requires Inv(cfg, p) && !p.failed && w < |p.workers| && v < |p.workers| && v != w
    requires p.workers[w].Writing? && p.workers[v].Writing?
    ensures p.workers[w].item.index != p.workers[v].item.index
  {
    var a, b := p.workers[w].item, p.workers[v].item;
    assert ItemOk(cfg, p.slots, p.copied, a) && ItemOk(cfg, p.slots, p.copied, b);
    OtherSlot(cfg, p, SP.AtWriter(w), a.slot, SP.AtWriter(v), b.slot);
    hide SlotsOk, FlowOk, RestOk, HandsOk, DoneOk, Config.Valid;
  }

  // ------------------------------------------------------------------- runs

  /** Every step of the launcher, of the device and of any worker keeps the invariant. */
  lemma {:induction false} StepKeepsInv(cfg: Config, p: Pipe, step: Step)
    requires Inv(cfg, p) && CanStep(cfg, p, step)
    ensures Inv(cfg, After(cfg, p, step))
  {
    SlotsKept(cfg, p, step);
    FlowKept(cfg, p, step);
    ShapeKept(cfg, p, step);
    UsedKept(cfg, p, step);
    if !After(cfg, p, step).failed {
      match step {
        case Acquire => AcquireKeeps(cfg, p);
        case Launch => LaunchKeeps(cfg, p);
        case Land(s, data) => LandKeeps(cfg, p, s, data);
        case Push => PushKeeps(cfg, p);
        case Close => CloseKeeps(cfg, p);
        case Pop(w) => PopKeeps(cfg, p, w);
        case Seal(w) => SealKeeps(cfg, p, w);
        case Release(w) => ReleaseKeeps(cfg, p, w);
        case Exit(w) => ExitKeeps(cfg, p, w);
        case _ =>
      }
    }
    hide SlotsOk, FlowOk, ShapeOk, UsedOk, Content, Config.Valid, Stored, Sealed;
  }

  lemma {:induction false} CloseKeeps(cfg: Config, p: Pipe)
    requires Inv(cfg, p) && !p.failed && CanStep(cfg, p, Close)
    ensures Content(cfg, After(cfg, p, Close))
  {
    hide ItemOk, WorkerOk, ItemIn, Complete, SlotsOk;
  }

  lemma {:induction false} InitInv(cfg: Config, p: Pipe)
    requires cfg.Valid() && Init(cfg, p)
    ensures Inv(cfg, p)
  {
    forall s: nat ensures Owners(p, s) == SP.One(s < cfg.nSlots) {
      SP.FreshStack(cfg.nSlots, s);
      SP.IdleHoldNone(p.workers, s);
    }
    SP.IdleHoldNone(p.workers, 0);
    hide Config.Valid;
  }

  ghost predicate Next(cfg: Config, p: Pipe, p': Pipe) {
    exists step :: CanStep(cfg, p, step) && p' == After(cfg, p, step)
  }

  ghost predicate Run(cfg: Config, trace: seq<Pipe>) {
    && cfg.Valid() && trace != [] && Init(cfg, trace[0]) && |trace[0].workers| > 0
    && forall n :: 0 < n < |trace| ==> Next(cfg, trace[n - 1], trace[n])
  }

  lemma {:induction false} RunKeepsInv(cfg: Config, trace: seq<Pipe>, n: nat)
    requires Run(cfg, trace) && n < |trace|
    ensures Inv(cfg, trace[n]) && |trace[n].workers| == |trace[0].workers|
  {
    hide Inv, Init;
    if n == 0 {
      InitInv(cfg, trace[0]);
    } else {
      RunKeepsInv(cfg, trace, n - 1);
      assert Next(cfg, trace[n - 1], trace[n]);
      var step :| CanStep(cfg, trace[n - 1], step) && trace[n] == After(cfg, trace[n - 1], step);
      StepKeepsInv(cfg, trace[n - 1], step);
      SameWorkers(cfg, trace[n - 1], step);
      hide CanStep, After, Run;
    }
  }

  lemma {:induction false} SameWorkers(cfg: Config, p: Pipe, step: Step)
    requires CanStep(cfg, p, step)
    ensures |After(cfg, p, step).workers| == |p.workers|
  {
    hide Stored, Sealed;
  }

  /** The launcher has closed the queue, and all workers have left. */
  predicate Ended(p: Pipe) {
    p.launcher.Joining? && forall w :: 0 <= w < |p.workers| ==> p.workers[w].Exited?
  }

  /** They have, and nothing failed. */
  predicate Drained(p: Pipe) {
    Ended(p) && !p.failed
  }

  lemma {:induction false} DrainedStays(cfg: Config, p: Pipe, step: Step)
    requires Drained(p) && CanStep(cfg, p, step)
    ensures Drained(After(cfg, p, step))
  {
    hide Stored, Sealed, CellFits, Complete;
  }

  /** Only landing changes what has landed, by one chunk. */
  lemma {:induction false} CopiedBy(cfg: Config, p: Pipe, step: Step)
    requires CanStep(cfg, p, step)
    ensures After(cfg, p, step).copied ==
            if step.Land? then p.copied[KeyOf(cfg, p.slots[step.s].work.value, |p.slots[step.s].chunks|) := step.data] else p.copied
  {
    hide Stored, Sealed, CellFits, Complete;
  }

  /** What landed for each chunk. */
  function CopiesOf(p: Pipe): Staged {
    (i: nat, j: nat) => if (i, j) in p.copied then p.copied[(i, j)] else []
  }

  lemma {:induction false} DrainedCells(cfg: Config, p: Pipe, i: nat, j: nat)
    requires Inv(cfg, p) && |p.workers| > 0 && Drained(p)
    requires i < |cfg.ranges| && j < cfg.ranges[i].length / CHUNK
    ensures CellIn(cfg, p.img, p.copied, i, j)
  {
    hide SlotsOk, WorkOk, RestOk, HandsOk, CellIn;
    assert p.workers[0].Exited? && Popped(p) == |cfg.items|;
    assert SomeHas(cfg.items, i, j);
    var x :| 0 <= x < |cfg.items| && Has(cfg.items[x], i, j);
    assert !AtSomeWorker(p.workers, x);
    assert ItemIn(cfg, p.img, p.copied, x, cfg.items[x].count);
    assert ChunkIn(cfg, p.img, p.copied, x, j - cfg.items[x].first);
  }

  /** Under every schedule, with any number of workers and slots and any landing order: once
      the queue is drained and nothing has failed, the bytes of the file are those of the
      image of what landed, each chunk under the counter its place demands. */
  lemma {:induction false} DrainedIsSealed(cfg: Config, trace: seq<Pipe>)
    requires Run(cfg, trace) && Drained(trace[|trace| - 1])
    ensures var p := trace[|trace| - 1];
            && FileSize(cfg.start, cfg.ranges, cfg.withMap) <= |p.img|
            && SealedFile(cfg.c, CopiesOf(p), cfg.base, FileOf(p.img, cfg.start, cfg.ranges, cfg.withMap))
  {
    RunKeepsInv(cfg, trace, |trace| - 1);
    hide Run, Inv, SealedFile;
    StateIsSealed(cfg, trace[|trace| - 1]);
  }

  lemma {:induction false} StateIsSealed(cfg: Config, p: Pipe)
    requires Inv(cfg, p) && |p.workers| > 0 && Drained(p)
    ensures FileSize(cfg.start, cfg.ranges, cfg.withMap) <= |p.img| && AllWhole(cfg.ranges, |cfg.ranges|)
    ensures SealedFile(cfg.c, CopiesOf(p), cfg.base, FileOf(p.img, cfg.start, cfg.ranges, cfg.withMap))
  {
    hide SlotsOk, FlowOk, UsedOk, WorkOk, RestOk, HandsOk, DoneOk;
    var f := FileOf(p.img, cfg.start, cfg.ranges, cfg.withMap);
    forall i, j | 0 <= i < |f.ranges| && 0 <= j < |f.cells[i]|
      ensures f.cells[i][j] == ImageCell(cfg.c, CopiesOf(p), f.ranges, cfg.base, i, j)
    {
      DrainedCells(cfg, p, i, j);
      hide Inv, BuildIv;
    }
  }

  /** The bytes a drained run leaves are a file its reader can take apart. */
  function FileBy(cfg: Config, p: Pipe): File
    requires AllWhole(cfg.ranges, |cfg.ranges|) && FileSize(cfg.start, cfg.ranges, cfg.withMap) <= |p.img|
  {
    FileOf(p.img, cfg.start, cfg.ranges, cfg.withMap)
  }

  /** From device to device: a baseline and a delta written by two drained runs under one
      key, whatever their splits, schedules, workers and counters. The restore of an
      allocation found whole in the baseline succeeds, and each of its chunks is what
      landed for the delta block that covers it, or else for the baseline. */
  lemma {:induction false} PipelinesRoundTrip(cfg: Config, trace: seq<Pipe>, cfgD: Config, traceD: seq<Pipe>, va: nat, size: nat,
                                              r: Result<seq<seq<byte>>>)
    requires Run(cfg, trace) && Drained(trace[|trace| - 1]) && Run(cfgD, traceD) && Drained(traceD[|traceD| - 1])
    requires cfg.c == cfgD.c && BlocksDisjoint(cfgD.ranges)
    requires var p, q := trace[|trace| - 1], traceD[|traceD| - 1];
             FileSize(cfg.start, cfg.ranges, cfg.withMap) <= |p.img| && FileSize(cfgD.start, cfgD.ranges, cfgD.withMap) <= |q.img|
    requires var d := FindRange(cfg.ranges, va, size);
             && d < |cfg.ranges| && WholeWindow(cfg.ranges[d], va, size)
             && Restores(cfg.c, FileBy(cfg, trace[|trace| - 1]), FileBy(cfgD, traceD[|traceD| - 1]), d, va, size, r)
    ensures r.Ok? && |r.value| * CHUNK == size
    ensures var d := FindRange(cfg.ranges, va, size);
            forall x :: 0 <= x < |r.value| ==>
              && InBlock(cfg.ranges[d], va + CHUNK * x)
              && IsLatest(CopiesOf(trace[|trace| - 1]), CopiesOf(traceD[|traceD| - 1]), cfg.ranges, cfgD.ranges, d, va + CHUNK * x, r.value[x])
  {
    var p, q := trace[|trace| - 1], traceD[|traceD| - 1];
    DrainedIsSealed(cfg, trace);
    DrainedIsSealed(cfgD, traceD);
    assert cfg.c.Sound();
    hide Run, Drained, FindRange, SealedFile, BlocksDisjoint, IsLatest, FileOf, Restores, WholeWindow, Config.Valid, CopiesOf;
    AllocRoundTrip(cfg.c, CopiesOf(p), CopiesOf(q), cfg.base, cfgD.base, FileBy(cfg, p), FileBy(cfgD, q), va, size, r);
  }

  // ---------------------------------------------------------------- progress

  /** A worker with an item can go on, or the device can. */
  lemma {:induction false} WorkerMoves(cfg: Config, p: Pipe, w: nat) returns (step: Step)
    requires Inv(cfg, p) && w < |p.workers| && p.workers[w].Writing?
    ensures CanStep(cfg, p, step) && !step.LaunchFails? && !step.SealFails?
  {
    var item, k := p.workers[w].item, p.workers[w].k;
    hide SlotsOk, FlowOk, UsedOk, Content, Covered;
    var it := cfg.items[item.index];
    if k == it.count {
      step := Release(w);
    } else if |p.slots[item.slot].chunks| < it.count {
      step := Land(item.slot, seq(CHUNK, _ => 0));
    } else {
      ItemPlace(cfg, item.index, k);
      CellInside(cfg.start, cfg.ranges, cfg.withMap, it.range, it.first + k);
      hide CipherAt, MetaAt, FileSize;
      step := Seal(w);
    }
  }

  /** While the launcher holds a slot the queue has room, and while it finds none free
      somebody else can go on. */
  lemma {:induction false} SlotsAround(cfg: Config, p: Pipe)
    requires SlotsOk(cfg, p) && cfg.nSlots > 0
    ensures SP.HasSlot(p.launcher) ==> |p.queue| < cfg.nSlots
    ensures !SP.HasSlot(p.launcher) && p.free == [] && p.queue == [] ==> SP.Busy(p.workers) > 0
  {
  }

  lemma {:induction false} WorkersMove(cfg: Config, p: Pipe) returns (step: Step)
    requires Inv(cfg, p) && |p.workers| > 0
    requires p.queue != [] || SP.Busy(p.workers) > 0 || (p.closed && exists w :: 0 <= w < |p.workers| && !p.workers[w].Exited?)
    ensures CanStep(cfg, p, step) && !step.LaunchFails? && !step.SealFails?
  {
    if w :| 0 <= w < |p.workers| && p.workers[w].Writing? {
      step := WorkerMoves(cfg, p, w);
    } else if p.queue != [] {
      assert !p.workers[0].Exited?;
      step := Pop(0);
    } else if SP.Busy(p.workers) > 0 {
      var w := SomeBusy(p.workers);
      assert false;
    } else {
      var w :| 0 <= w < |p.workers| && !p.workers[w].Exited?;
      step := Exit(w);
    }
  }

  lemma {:induction false} SomeBusy(ws: seq<SP.Writer>) returns (w: nat)
    requires SP.Busy(ws) > 0
    ensures w < |ws| && ws[w].Writing?
  {
    var n := |ws| - 1;
    if ws[n].Writing? { w := n; } else { w := SomeBusy(ws[..n]); }
  }

  /** No schedule deadlocks, whatever has failed before: with a worker, a slot, and a queue
      no smaller than the pool, until all workers have left some step other than a failure
      is enabled. */
  lemma {:induction false} NeverStuck(cfg: Config, p: Pipe) returns (step: Step)
    requires Inv(cfg, p) && |p.workers| > 0 && 0 < cfg.nSlots <= cfg.capacity && !Ended(p)
    ensures CanStep(cfg, p, step) && !step.LaunchFails? && !step.SealFails?
  {
    SlotsAround(cfg, p);
    match p.launcher {
      case Ready =>
        if p.next >= |cfg.items| {
          step := Close;
        } else if p.free != [] {
          step := Acquire;
        } else {
          step := WorkersMove(cfg, p);
        }
      case Filling(s) =>
        OnePlace(cfg, p, SP.AtHand, SP.AtHand, s);
        ItemPlace(cfg, p.next, 0);
        step := Launch;
      case Pushing(_) => step := Push;
      case Stopped(_) => step := GiveBack;
      case Joining => step := WorkersMove(cfg, p);
    }
  }

  // ------------------------------------------------------------ every run ends

  /** Sealing, popping and releasing an item. */
  function ItemWork(cfg: Config, item: SP.Item): nat {
    if item.index < |cfg.items| then cfg.items[item.index].count + 3 else 3
  }

  function QueueWork(cfg: Config, q: seq<SP.Item>): nat {
    if q == [] then 0 else ItemWork(cfg, q[0]) + QueueWork(cfg, q[1..])
  }

  function WorkerWork(cfg: Config, w: SP.Writer): nat {
    match w
    case Idle => 1
    case Writing(item, k) => if k + 3 <= ItemWork(cfg, item) then ItemWork(cfg, item) - 1 - k else 2
    case Exited => 0
  }

  function WorkersWork(cfg: Config, ws: seq<SP.Writer>): nat {
    if ws == [] then 0 else WorkersWork(cfg, ws[..|ws| - 1]) + WorkerWork(cfg, ws[|ws| - 1])
  }

  function LauncherWork(cfg: Config, launcher: SP.Producer): nat {
    match launcher
    case Ready => 5
    case Filling(_) => 4
    case Pushing(item) => 6 + ItemWork(cfg, item)
    case Stopped(_) => 3
    case Joining => 1
    case Finished => 0
  }

  /** Chunks of a started copy that have not landed. */
  function Missing(cfg: Config, slot: Slot): nat {
    if slot.work.Some? && slot.work.value < |cfg.items| && |slot.chunks| <= cfg.items[slot.work.value].count
    then cfg.items[slot.work.value].count - |slot.chunks| else 0
  }

  function LandWork(cfg: Config, slots: seq<Slot>): nat {
    if slots == [] then 0 else LandWork(cfg, slots[..|slots| - 1]) + Missing(cfg, slots[|slots| - 1])
  }

  function Work(cfg: Config, p: Pipe): nat {
    LauncherWork(cfg, p.launcher) + QueueWork(cfg, p.queue) + WorkersWork(cfg, p.workers) + LandWork(cfg, p.slots)
  }

  lemma {:induction false} WorkersWorkUpdate(cfg: Config, ws: seq<SP.Writer>, w: nat, x: SP.Writer)
    requires w < |ws|
    ensures WorkersWork(cfg, ws[w := x]) + WorkerWork(cfg, ws[w]) == WorkersWork(cfg, ws) + WorkerWork(cfg, x)
    decreases |ws|
  {
    var n := |ws| - 1;
    if w == n {
      assert ws[w := x][..n] == ws[..n];
    } else {
      WorkersWorkUpdate(cfg, ws[..n], w, x);
      assert ws[w := x][..n] == ws[..n][w := x];
    }
  }

  lemma {:induction false} LandWorkUpdate(cfg: Config, slots: seq<Slot>, s: nat, x: Slot)
    requires s < |slots|
    ensures LandWork(cfg, slots[s := x]) + Missing(cfg, slots[s]) == LandWork(cfg, slots) + Missing(cfg, x)
    decreases |slots|
  {
    var n := |slots| - 1;
    if s == n {
      assert slots[s := x][..n] == slots[..n];
    } else {
      LandWorkUpdate(cfg, slots[..n], s, x);
      assert slots[s := x][..n] == slots[..n][s := x];
    }
  }

  lemma {:induction false} QueueWorkPush(cfg: Config, q: seq<SP.Item>, item: SP.Item)
    ensures QueueWork(cfg, q + [item]) == QueueWork(cfg, q) + ItemWork(cfg, item)
  {
    if q == [] {
      assert q + [item] == [item];
    } else {
      QueueWorkPush(cfg, q[1..], item);
      assert (q + [item])[1..] == q[1..] + [item];
    }
  }

  /** Every step makes progress, failures included: either one item fewer is left to
      launch, or less is left to land, hand over, seal and release. */
  lemma {:induction false} StepsShorten(cfg: Config, p: Pipe, step: Step)
    requires Inv(cfg, p) && CanStep(cfg, p, step)
    ensures Launched(p) <= Launched(After(cfg, p, step)) <= |cfg.items|
    ensures Launched(After(cfg, p, step)) == Launched(p) ==> Work(cfg, After(cfg, p, step)) < Work(cfg, p)
  {
    hide SlotsOk, Content, Config.Valid, Stored, Sealed, CellFits, QueueWork, WorkersWork, LandWork;
    var p' := After(cfg, p, step);
    match step
    case Land(s, data) => LandWorkUpdate(cfg, p.slots, s, p'.slots[s]);
    case Push => QueueWorkPush(cfg, p.queue, p.launcher.item);
    case Pop(w) =>
      QueueWorkPop(cfg, p.queue);
      WorkersWorkUpdate(cfg, p.workers, w, p'.workers[w]);
    case Seal(w) => WorkersWorkUpdate(cfg, p.workers, w, p'.workers[w]);
    case SealFails(w, _) => WorkersWorkUpdate(cfg, p.workers, w, SP.Idle);
    case Release(w) => WorkersWorkUpdate(cfg, p.workers, w, SP.Idle);
    case Exit(w) => WorkersWorkUpdate(cfg, p.workers, w, SP.Exited);
    case _ =>
  }

  lemma {:induction false} QueueWorkPop(cfg: Config, q: seq<SP.Item>)
    requires q != []
    ensures QueueWork(cfg, q) == ItemWork(cfg, q[0]) + QueueWork(cfg, q[1..])
  {
  }

  // --------------------------------------------------------------- counters

  /** The counter a chunk's encryption uses. */
  function CounterOf(cfg: Config, u: (nat, nat)): nat
    requires u.0 < |cfg.items|
  {
    cfg.items[u.0].iv + u.1
  }

  /** Counters the run reserves, one for each chunk of its ranges. */
  function Reserved(cfg: Config): nat {
    ChunksBefore(cfg.ranges, |cfg.ranges|)
  }

  lemma {:induction false} ChunksGrow(ranges: seq<Range>, i: nat, k: nat)
    requires i < k <= |ranges|
    ensures ChunksBefore(ranges, i) + ranges[i].length / CHUNK <= ChunksBefore(ranges, k)
  {
    if i + 1 < k {
      ChunksGrow(ranges, i, k - 1);
    }
  }

  /** A counter lies in the run's reservation, and is that of one chunk only. */
  lemma {:induction false} CountersApart(cfg: Config, u: (nat, nat), v: (nat, nat))
    requires cfg.Valid() && u.0 < |cfg.items| && v.0 < |cfg.items| && u.1 < cfg.items[u.0].count && v.1 < cfg.items[v.0].count
    ensures cfg.base <= CounterOf(cfg, u) < cfg.base + Reserved(cfg)
    ensures u != v ==> CounterOf(cfg, u) != CounterOf(cfg, v)
  {
    ItemPlace(cfg, u.0, u.1);
    ItemPlace(cfg, v.0, v.1);
    KeysApart(cfg, u.0, u.1, v.0, v.1);
    var a, b := cfg.items[u.0].range, cfg.items[v.0].range;
    hide Config.Valid, ChunksBefore, Has;
    ChunksGrow(cfg.ranges, a, |cfg.ranges|);
    if a < b {
      ChunksGrow(cfg.ranges, a, b);
    } else if b < a {
      ChunksGrow(cfg.ranges, b, a);
    }
  }

  /** In every state of a run, failed ones included, each counter used is one of those
      reserved, and none was used twice. */
  lemma {:induction false} CountersOnce(cfg: Config, p: Pipe, i: nat, j: nat)
    requires Inv(cfg, p) && i < |p.used| && j < |p.used|
    ensures p.used[i].0 < |cfg.items| && p.used[j].0 < |cfg.items|
    ensures cfg.base <= CounterOf(cfg, p.used[i]) < cfg.base + Reserved(cfg)
    ensures i != j ==> CounterOf(cfg, p.used[i]) != CounterOf(cfg, p.used[j])
  {
    assert p.used[i].0 < Popped(p) <= |cfg.items|;
    hide SlotsOk, FlowOk, ShapeOk, Content, Config.Valid;
    CountersApart(cfg, p.used[i], p.used[j]);
  }
}
