/** GCR's incremental image over whole runs: allocations, frees, marks and device
    writes, interleaved with stop-and-copy rounds that overwrite the image in place. */
module GcrImage {
  import opened Chunking
  import opened DirtySet
  import opened GcrPacking
  import opened GcrTable
  import opened GcrRound
  import opened Bytes
  import PageCrypto

  const MAX_RANGES: nat := 0x10_0000
  const IV_STRIDE: nat := 0x1_0000_0000

  /** What the last capture of a byte brought: its value, or junk when the copy failed. */
  datatype Captured = Never | Value(value: int) | Lost

  /** Where the current round is: the dirty set is first copied out, then cleared. */
  datatype Flight = Idle | Stalled | Taken(ranges: seq<Range>) | Snapped(ranges: seq<Range>) | Copied

  datatype Gcr = Gcr(table: Table, dirty: seq<Range>, mem: nat -> int, image: nat -> Cell, round: nat, flight: Flight)

  datatype Config = Config(imageSize: nat, staging: nat)

  datatype Event =
    | Record(va: nat, size: nat)
    | Retire(addr: nat)
    | Mark(va: nat, size: nat)
    | Write(addr: nat, value: int)
    | Begin
    | Snapshot
    | Clear
    | Capture(chunks: seq<Chunk>, packs: seq<Pack>, trace: seq<Round>, steps: seq<GcrRound.Event>)
    | End

  /** What the environment guarantees: the device allocator hands out no live
      address twice, a tracked byte is written only while its mark is pending and no
      round is stalling the application; a capture is any drained pipeline run over
      the chunks built from the snapshot. */
  ghost predicate CanStep(cfg: Config, g: Gcr, e: Event)
    requires cfg.staging > 0
  {
    match e
    case Record(va, size) => forall i, a :: 0 <= i < |g.table.rows| && Owns(g.table.rows[i], a) ==> !(va <= a < va + size)
    case Write(a, _) => g.flight.Idle? && forall i :: 0 <= i < |g.table.rows| && Owns(g.table.rows[i], a) ==> Covers(g.dirty, a)
    case Begin => g.flight.Idle?
    case Snapshot => g.flight.Stalled?
    case Clear => g.flight.Taken?
    case Capture(chunks, packs, trace, steps) =>
      && g.flight.Snapped?
      && Pieces(chunks) == CutAll(g.table.rows, g.flight.ranges, cfg.staging)
      && WellPacked(chunks, packs, cfg.staging)
      && RoundRun(chunks, packs, g.round * IV_STRIDE, g.mem, trace, steps)
      && trace[|trace| - 1].pipe.consumer.Exited? && |trace[|trace| - 1].pipe.out| == |packs|
    case End => g.flight.Copied?
    case _ => true
  }

  ghost function After(cfg: Config, g: Gcr, e: Event): Gcr
    requires cfg.staging > 0 && CanStep(cfg, g, e)
  {
    match e
    case Record(va, size) => g.(table := Recorded(g.table, cfg.imageSize, va, size))
    case Retire(addr) => g.(table := g.table.(rows := Retired(g.table.rows, addr, !g.flight.Idle?)))
    case Mark(va, size) => g.(dirty := Marked(g.table.rows, g.dirty, va, size))
    case Write(a, v) => g.(mem := (b: nat) => if b == a then v else g.mem(b))
    case Begin => g.(flight := Stalled)
    case Snapshot => g.(flight := Taken(g.dirty[..Min(MAX_RANGES, |g.dirty|)]))
    case Clear => g.(flight := Snapped(g.flight.ranges), dirty := [])
    case Capture(chunks, packs, trace, steps) =>
      var out := trace[|trace| - 1].pipe.out;
      g.(image := (x: nat) => ImageCell(g.image, chunks, packs, out, |packs|, x), flight := Copied)
    case End => g.(table := g.table.(rows := Swept(g.table.rows)), round := g.round + 1, flight := Idle)
  }

  ghost predicate GcrInv(cfg: Config, g: Gcr) {
    && SlotsApart(g.table, cfg.imageSize) && LiveApart(g.table.rows)
    && Canonical(g.dirty)
  }

  lemma {:induction false} StepKeepsInv(cfg: Config, g: Gcr, e: Event)
    requires cfg.staging > 0 && GcrInv(cfg, g) && CanStep(cfg, g, e)
    ensures GcrInv(cfg, After(cfg, g, e))
    ensures Evolves(g.table.rows, After(cfg, g, e).table.rows)
  {
    hide Canonical, Covers, WellPacked, RoundRun, CutAll;
    match e
    case Record(va, size) =>
      RecordedKeepsSlots(g.table, cfg.imageSize, va, size);
    case Retire(addr) =>
      RetiredKeepsSlots(g.table, cfg.imageSize, addr, !g.flight.Idle?);
      EvolvesKeepsApart(g.table, Retired(g.table.rows, addr, !g.flight.Idle?), cfg.imageSize);
    case Mark(va, size) => MarkedCovers(g.table.rows, g.dirty, va, size, 0);
    case End => EvolvesKeepsApart(g.table, Swept(g.table.rows), cfg.imageSize);
    case Clear => EmptyCanonical();
    case _ =>
  }

  lemma {:induction false} EmptyCanonical()
    ensures Canonical([]) && forall a :: !Covers([], a)
  {
  }

  ghost predicate Run(cfg: Config, states: seq<Gcr>, events: seq<Event>) {
    && cfg.staging > 0 && |states| == |events| + 1
    && states[0].table == Table([], 0) && states[0].dirty == [] && states[0].flight == Idle && states[0].round == 0
    && forall n :: 0 <= n < |events| ==> Next(cfg, states[n], events[n], states[n + 1])
  }

  ghost predicate Next(cfg: Config, g: Gcr, e: Event, g': Gcr)
    requires cfg.staging > 0
  {
    CanStep(cfg, g, e) && g' == After(cfg, g, e)
  }

  /** In every reachable state the image slots are disjoint and inside the image. */
  lemma {:induction false} RunKeepsInv(cfg: Config, states: seq<Gcr>, events: seq<Event>, n: nat)
    requires Run(cfg, states, events) && n < |states|
    ensures GcrInv(cfg, states[n])
  {
    if n == 0 {
    } else {
      RunKeepsInv(cfg, states, events, n - 1);
      assert Next(cfg, states[n - 1], events[n - 1], states[n]);
      StepKeepsInv(cfg, states[n - 1], events[n - 1]);
    }
  }

  // ------------------------------------------------------------ what is captured

  predicate InRange(r: Range, a: int) {
    r.start <= a < r.end
  }

  /** Byte `a` of row `i` is dirty in a range that starts in the same allocation. */
  ghost predicate Captures(rows: seq<Alloc>, ranges: seq<Range>, i: nat, a: int)
    requires i < |rows|
  {
    Owns(rows[i], a)
    && exists k :: 0 <= k < |ranges| && InRange(ranges[k], a) && rows[i].va <= ranges[k].start
  }

  /** No range runs from one allocation into another. */
  ghost predicate RangesFit(rows: seq<Alloc>, ranges: seq<Range>) {
    forall i, k, a :: 0 <= i < |rows| && 0 <= k < |ranges| && Owns(rows[i], a) && InRange(ranges[k], a) ==>
      rows[i].va <= ranges[k].start
  }

  predicate CarriedBy(p: Piece, b: int, x: int) {
    p.va <= b < p.va + p.size && x == p.img + (b - p.va)
  }

  /** A clipped range brings only byte `a` to the place of byte `a`. */
  lemma {:induction false} ClipSource(t: Table, imageSize: nat, r: Range, i: nat, a: int, b: int)
    requires SlotsApart(t, imageSize)
    requires i < |t.rows| && t.rows[i].slot.At? && t.rows[i].va <= a < t.rows[i].va + t.rows[i].size
    requires CarriedBy(Clip(t.rows, r), b, t.rows[i].slot.offset + (a - t.rows[i].va))
    ensures b == a && Owns(t.rows[i], a) && InRange(r, a) && t.rows[i].va <= r.start
  {
    var j := FindAlloc(t.rows, r.start);
    assert j == i;
  }

  lemma {:induction false} ClipBrings(rows: seq<Alloc>, r: Range, i: nat, a: int)
    requires LiveApart(rows) && i < |rows| && rows[i].slot.At? && Owns(rows[i], a)
    requires InRange(r, a) && rows[i].va <= r.start
    ensures CarriedBy(Clip(rows, r), a, rows[i].slot.offset + (a - rows[i].va))
  {
    var j := FindAlloc(rows, r.start);
    assert Owns(rows[i], r.start);
    assert j < |rows| ==> Owns(rows[j], r.start);
  }

  /** The chunk list brings to the place of byte `a` that byte only, and brings it
      exactly when a dirty range starting in its own allocation holds it: the part of
      a range that lies in a later allocation is lost. */
  lemma {:induction false} CaptureExact(t: Table, imageSize: nat, ranges: seq<Range>, staging: nat, i: nat, a: int, b: int)
    requires staging > 0 && SlotsApart(t, imageSize) && LiveApart(t.rows)
    requires i < |t.rows| && t.rows[i].slot.At? && t.rows[i].va <= a < t.rows[i].va + t.rows[i].size
    ensures Carries(CutAll(t.rows, ranges, staging), b, t.rows[i].slot.offset + (a - t.rows[i].va))
       <==> b == a && Captures(t.rows, ranges, i, a)
  {
    hide SlotsApart, LiveApart, Clip, Carries, CutAll;
    CutAllCarries(t.rows, ranges, staging, b, t.rows[i].slot.offset + (a - t.rows[i].va));
    RangeBrings(t, imageSize, ranges, i, a, b);
  }

  lemma {:induction false} RangeBrings(t: Table, imageSize: nat, ranges: seq<Range>, i: nat, a: int, b: int)
    requires SlotsApart(t, imageSize) && LiveApart(t.rows)
    requires i < |t.rows| && t.rows[i].slot.At? && t.rows[i].va <= a < t.rows[i].va + t.rows[i].size
    ensures (exists k :: 0 <= k < |ranges| && var p := Clip(t.rows, ranges[k]);
               p.va <= b < p.va + p.size && t.rows[i].slot.offset + (a - t.rows[i].va) == p.img + (b - p.va))
       <==> b == a && Captures(t.rows, ranges, i, a)
  {
    var x := t.rows[i].slot.offset + (a - t.rows[i].va);
    forall k | 0 <= k < |ranges|
      ensures CarriedBy(Clip(t.rows, ranges[k]), b, x)
         <==> b == a && Owns(t.rows[i], a) && InRange(ranges[k], a) && t.rows[i].va <= ranges[k].start
    {
      if CarriedBy(Clip(t.rows, ranges[k]), b, x) {
        ClipSource(t, imageSize, ranges[k], i, a, b);
      }
      if b == a && Owns(t.rows[i], a) && InRange(ranges[k], a) && t.rows[i].va <= ranges[k].start {
        ClipBrings(t.rows, ranges[k], i, a);
      }
    }
    hide SlotsApart, LiveApart, Clip;
    assert forall k :: 0 <= k < |ranges| ==>
      (CarriedBy(Clip(t.rows, ranges[k]), b, x) <==>
        var p := Clip(t.rows, ranges[k]); p.va <= b < p.va + p.size && x == p.img + (b - p.va));
  }

  /** Image bytes past the bump pointer receive nothing. */
  lemma {:induction false} CarriesBelow(t: Table, imageSize: nat, ranges: seq<Range>, staging: nat, b: int, x: int)
    requires staging > 0 && SlotsApart(t, imageSize)
    requires Carries(CutAll(t.rows, ranges, staging), b, x)
    ensures x < t.used
  {
    CutAllCarries(t.rows, ranges, staging, b, x);
    var k :| 0 <= k < |ranges| && var p := Clip(t.rows, ranges[k]); p.va <= b < p.va + p.size && x == p.img + (b - p.va);
    var j := FindAlloc(t.rows, ranges[k].start);
    assert t.rows[j].slot.At?;
  }

  lemma {:induction false} ReachedCarries(chunks: seq<Chunk>, x: int, b: int)
    ensures Carries(Pieces(chunks), b, x)
       <==> exists j :: 0 <= j < |chunks| && Reaches(chunks[j], x) && b == chunks[j].va + (x - chunks[j].img)
  {
    var ps := Pieces(chunks);
    if Carries(ps, b, x) {
      var k :| 0 <= k < |ps| && ps[k].va <= b < ps[k].va + ps[k].size && x == ps[k].img + (b - ps[k].va);
      assert Reaches(chunks[k], x);
    }
    if j :| 0 <= j < |chunks| && Reaches(chunks[j], x) && b == chunks[j].va + (x - chunks[j].img) {
      assert ps[j].va <= b < ps[j].va + ps[j].size && x == ps[j].img + (b - ps[j].va);
    }
  }

  /** When the chunks bring at most byte `a` to image byte `x`, and bring it when
      `taken`, they agree on its source and reach it exactly when `taken`. */
  lemma {:induction false} CarriedOnly(chunks: seq<Chunk>, x: int, a: int, taken: bool)
    requires forall b :: Carries(Pieces(chunks), b, x) <==> b == a && taken
    ensures OneSource(chunks, x, a) && (ReachedIn(chunks, 0, |chunks|, x) <==> taken)
  {
    forall j | 0 <= j < |chunks| && Reaches(chunks[j], x) ensures taken && chunks[j].va + (x - chunks[j].img) == a {
      ReachedCarries(chunks, x, chunks[j].va + (x - chunks[j].img));
    }
    if taken {
      ReachedCarries(chunks, x, a);
    }
  }

  /** The chunks whose copy failed in a capture. */
  function Losses(e: Event): set<nat> {
    if e.Capture? && e.trace != [] then e.trace[|e.trace| - 1].lost else {}
  }

  lemma {:induction false} CaptureFits(cfg: Config, g: Gcr, e: Event)
    requires cfg.staging > 0 && CanStep(cfg, g, e) && e.Capture?
    ensures PacksFit(e.chunks, e.packs) && e.trace != []
  {
  }

  /** One round, seen from the place of one byte: a captured byte is replaced by its
      device value, or by anything when its copy failed, sealed under an IV of the round;
      any other keeps its old content. */
  lemma {:induction false} CaptureDelivers(cfg: Config, g: Gcr, e: Event, i: nat, a: nat)
    requires cfg.staging > 0 && GcrInv(cfg, g) && CanStep(cfg, g, e) && e.Capture?
    requires i < |g.table.rows| && g.table.rows[i].slot.At?
    requires g.table.rows[i].va <= a < g.table.rows[i].va + g.table.rows[i].size
    ensures g.flight.Snapped?
    ensures var x := g.table.rows[i].slot.offset + (a - g.table.rows[i].va);
            var c := After(cfg, g, e).image(x);
            if Captures(g.table.rows, g.flight.ranges, i, a)
            then c.Sealed? && (Came(e.chunks, Losses(e), a) ==> c.byte == g.mem(a))
                 && g.round * IV_STRIDE <= c.iv < SlotIv(g.round * IV_STRIDE, e.packs, |e.packs|)
            else c == g.image(x)
  {
    hide WellPacked, RoundRun, SlotsApart, LiveApart, Captures, CutAll, Canonical, SlotIv, Carries, ReachedIn, OneSource, Came;
    CaptureFits(cfg, g, e);
    var x := g.table.rows[i].slot.offset + (a - g.table.rows[i].va);
    forall b ensures Carries(Pieces(e.chunks), b, x) <==> b == a && Captures(g.table.rows, g.flight.ranges, i, a) {
      CaptureExact(g.table, cfg.imageSize, g.flight.ranges, cfg.staging, i, a, b);
    }
    CarriedOnly(e.chunks, x, a, Captures(g.table.rows, g.flight.ranges, i, a));
    RoundDelivers(g.image, e.chunks, e.packs, cfg.staging, g.round * IV_STRIDE, g.mem, e.trace, e.steps, x, a);
  }

  lemma {:induction false} CaptureLeavesFresh(cfg: Config, g: Gcr, e: Event, x: nat)
    requires cfg.staging > 0 && GcrInv(cfg, g) && CanStep(cfg, g, e) && e.Capture? && x >= g.table.used
    ensures After(cfg, g, e).image(x) == g.image(x)
  {
    hide WellPacked, RoundRun, SlotsApart, LiveApart, CutAll, Canonical, Carries, ReachedIn, OneSource;
    CaptureFits(cfg, g, e);
    forall b ensures !Carries(Pieces(e.chunks), b, x) {
      if Carries(Pieces(e.chunks), b, x) {
        CarriesBelow(g.table, cfg.imageSize, g.flight.ranges, cfg.staging, b, x);
      }
    }
    CarriedOnly(e.chunks, x, 0, false);
    RoundDelivers(g.image, e.chunks, e.packs, cfg.staging, g.round * IV_STRIDE, g.mem, e.trace, e.steps, x, 0);
  }

  // ------------------------------------------------------------------ histories

  /** What the last round that captured byte `a` of row `i` brought of it. */
  ghost function LastCaptured(states: seq<Gcr>, events: seq<Event>, n: nat, i: nat, a: nat): Captured
    requires n <= |events| < |states|
  {
    if n == 0 then Never
    else
      var g := states[n - 1];
      if events[n - 1].Capture? && g.flight.Snapped? && i < |g.table.rows| && Captures(g.table.rows, g.flight.ranges, i, a)
      then if Came(events[n - 1].chunks, Losses(events[n - 1]), a) then Value(g.mem(a)) else Lost
      else LastCaptured(states, events, n - 1, i, a)
  }

  /** Byte `a` was dirty at some time while row `i` was live. */
  ghost predicate EverDirty(states: seq<Gcr>, n: nat, i: nat, a: nat)
    requires n < |states|
  {
    exists k :: 0 <= k <= n && i < |states[k].table.rows| && Owns(states[k].table.rows[i], a) && Covers(states[k].dirty, a)
  }

  lemma {:induction false} UnrecordedNeverCaptured(cfg: Config, states: seq<Gcr>, events: seq<Event>, n: nat, i: nat, a: nat)
    requires Run(cfg, states, events) && n < |states| && |states[n].table.rows| <= i
    ensures LastCaptured(states, events, n, i, a).Never?
  {
    if n > 0 {
      RunKeepsInv(cfg, states, events, n - 1);
      assert Next(cfg, states[n - 1], events[n - 1], states[n]);
      StepKeepsInv(cfg, states[n - 1], events[n - 1]);
      UnrecordedNeverCaptured(cfg, states, events, n - 1, i, a);
    }
  }

  lemma {:induction false} FreshUntouched(cfg: Config, states: seq<Gcr>, events: seq<Event>, n: nat, x: nat)
    requires Run(cfg, states, events) && n < |states| && x >= states[n].table.used
    ensures states[n].image(x) == states[0].image(x)
  {
    if n > 0 {
      var g, e := states[n - 1], events[n - 1];
      RunKeepsInv(cfg, states, events, n - 1);
      assert Next(cfg, g, e, states[n]);
      assert g.table.used <= states[n].table.used;
      FreshUntouched(cfg, states, events, n - 1, x);
      if e.Capture? {
        CaptureLeavesFresh(cfg, g, e, x);
      }
    }
  }

  /** Cell `c` holds the captured value, or the initial cell when there is none. */
  predicate Keeps(c: Cell, captured: Captured, initial: Cell) {
    match captured
    case Never => c == initial
    case Value(v) => c.Sealed? && c.byte == v
    case Lost => c.Sealed?
  }

  /** Byte `a` of row `i` has image cell `x`. */
  predicate CellOf(rows: seq<Alloc>, i: nat, a: nat, x: int) {
    && i < |rows| && rows[i].slot.At? && rows[i].va <= a < rows[i].va + rows[i].size
    && x == rows[i].slot.offset + (a - rows[i].va)
  }

  /** Over every run the place of each byte of each recorded allocation holds the
      value of the last round that captured it, and what it held before any did. */
  lemma {:induction false} ImageHoldsLastCapture(cfg: Config, states: seq<Gcr>, events: seq<Event>, n: nat, i: nat, a: nat, x: nat)
    requires Run(cfg, states, events) && n < |states| && CellOf(states[n].table.rows, i, a, x)
    ensures |events| + 1 == |states| && Keeps(states[n].image(x), LastCaptured(states, events, n, i, a), states[0].image(x))
  {
    if n == 0 { return; }
    assert |events| + 1 == |states|;
    hide Run, CanStep, After, GcrInv, Captures, LastCaptured, Evolves, Keeps, CellOf;
    RunStep(cfg, states, events, n);
    if i < |states[n - 1].table.rows| {
      SameCell(states[n - 1].table.rows, states[n].table.rows, i, a, x);
      ImageHoldsLastCapture(cfg, states, events, n - 1, i, a, x);
      OldRowKeeps(cfg, states, events, n, i, a, x);
    } else {
      NewRowUntouched(cfg, states, events, n, i, a, x);
    }
  }

  lemma {:induction false} OldRowKeeps(cfg: Config, states: seq<Gcr>, events: seq<Event>, n: nat, i: nat, a: nat, x: nat)
    requires Run(cfg, states, events) && 0 < n < |states| == |events| + 1 && CellOf(states[n - 1].table.rows, i, a, x)
    requires Keeps(states[n - 1].image(x), LastCaptured(states, events, n - 1, i, a), states[0].image(x))
    ensures Keeps(states[n].image(x), LastCaptured(states, events, n, i, a), states[0].image(x))
  {
    hide Run, CanStep, After, GcrInv, Captures, LastCaptured, Evolves, SlotIv;
    var g, e := states[n - 1], events[n - 1];
    RunStep(cfg, states, events, n);
    LastStep(states, events, n, i, a);
    if e.Capture? {
      CaptureDelivers(cfg, g, e, i, a);
    } else {
      KeepsImage(cfg, g, e);
    }
  }

  lemma {:induction false} SameCell(old_: seq<Alloc>, new_: seq<Alloc>, i: nat, a: nat, x: nat)
    requires Evolves(old_, new_) && i < |old_| && CellOf(new_, i, a, x)
    ensures CellOf(old_, i, a, x)
  {
  }

  lemma {:induction false} LastStep(states: seq<Gcr>, events: seq<Event>, n: nat, i: nat, a: nat)
    requires 0 < n <= |events| < |states|
    requires var g := states[n - 1]; i < |g.table.rows| && (events[n - 1].Capture? ==> g.flight.Snapped?)
    ensures var g := states[n - 1];
            LastCaptured(states, events, n, i, a) ==
            if events[n - 1].Capture? && Captures(g.table.rows, g.flight.ranges, i, a)
            then if Came(events[n - 1].chunks, Losses(events[n - 1]), a) then Value(g.mem(a)) else Lost
            else LastCaptured(states, events, n - 1, i, a)
  {
  }

  lemma {:induction false} NewRowUntouched(cfg: Config, states: seq<Gcr>, events: seq<Event>, n: nat, i: nat, a: nat, x: nat)
    requires Run(cfg, states, events) && 0 < n < |states| == |events| + 1 && |states[n - 1].table.rows| <= i
    requires CellOf(states[n].table.rows, i, a, x)
    ensures Keeps(states[n].image(x), LastCaptured(states, events, n, i, a), states[0].image(x))
  {
    var g, e := states[n - 1], events[n - 1];
    RunStep(cfg, states, events, n);
    hide Captures, GcrInv, CanStep, Evolves, Run;
    NewRowIsFresh(cfg, g, e, i);
    KeepsImage(cfg, g, e);
    UnrecordedNeverCaptured(cfg, states, events, n - 1, i, a);
    FreshUntouched(cfg, states, events, n - 1, x);
  }

  /** One step of a run, with what every step keeps. */
  lemma {:induction false} RunStep(cfg: Config, states: seq<Gcr>, events: seq<Event>, n: nat)
    requires Run(cfg, states, events) && 0 < n < |states|
    ensures cfg.staging > 0 && |events| + 1 == |states|
    ensures GcrInv(cfg, states[n - 1]) && CanStep(cfg, states[n - 1], events[n - 1])
    ensures states[n] == After(cfg, states[n - 1], events[n - 1])
    ensures events[n - 1].Capture? ==> states[n - 1].flight.Snapped?
    ensures Evolves(states[n - 1].table.rows, states[n].table.rows)
  {
    RunKeepsInv(cfg, states, events, n - 1);
    assert Next(cfg, states[n - 1], events[n - 1], states[n]);
    assert events[n - 1].Capture? ==> states[n - 1].flight.Snapped?;
    hide CanStep, After, GcrInv;
    StepKeepsInv(cfg, states[n - 1], events[n - 1]);
  }

  lemma {:induction false} KeepsImage(cfg: Config, g: Gcr, e: Event)
    requires cfg.staging > 0 && CanStep(cfg, g, e) && !e.Capture?
    ensures After(cfg, g, e).image == g.image
  {
  }

  lemma {:induction false} NewRowIsFresh(cfg: Config, g: Gcr, e: Event, i: nat)
    requires cfg.staging > 0 && CanStep(cfg, g, e)
    requires |g.table.rows| <= i < |After(cfg, g, e).table.rows|
    ensures e.Record? && (After(cfg, g, e).table.rows[i].slot.At? ==> After(cfg, g, e).table.rows[i].slot.offset == g.table.used)
  {
  }

  // -------------------------------------------------------------- consistency

  /** Every clearing dropped just what the snapshot before it had taken, and no captured
      range crossed from one live allocation into another. */
  ghost predicate CleanCaptures(states: seq<Gcr>, events: seq<Event>)
    requires |events| < |states|
  {
    forall n :: 0 <= n < |events| ==>
      && (events[n].Clear? && states[n].flight.Taken? ==> states[n].dirty == states[n].flight.ranges)
      && (events[n].Capture? && states[n].flight.Snapped? ==> RangesFit(states[n].table.rows, states[n].flight.ranges))
  }

  /** Byte `a` waits to be captured. */
  ghost predicate Pending(g: Gcr, a: int) {
    Covers(g.dirty, a) || (g.flight.Snapped? && Covers(g.flight.ranges, a))
  }

  lemma {:induction false} FitCaptures(rows: seq<Alloc>, ranges: seq<Range>, i: nat, a: int)
    requires RangesFit(rows, ranges) && i < |rows| && Owns(rows[i], a) && Covers(ranges, a)
    ensures Captures(rows, ranges, i, a)
  {
    var k :| 0 <= k < |ranges| && ranges[k].start <= a < ranges[k].end;
    assert InRange(ranges[k], a);
  }

  /** A pending byte stays pending until a capture takes it. */
  lemma {:induction false} PendingStep(cfg: Config, g: Gcr, e: Event, i: nat, a: nat)
    requires cfg.staging > 0 && GcrInv(cfg, g) && CanStep(cfg, g, e) && i < |g.table.rows| && Owns(g.table.rows[i], a)
    requires e.Clear? ==> g.dirty == g.flight.ranges
    requires e.Capture? ==> RangesFit(g.table.rows, g.flight.ranges)
    requires Pending(g, a)
    ensures Pending(After(cfg, g, e), a) || (e.Capture? && Captures(g.table.rows, g.flight.ranges, i, a))
  {
    hide Canonical, Covers, WellPacked, RoundRun, CutAll, Captures, RangesFit, SlotsApart, LiveApart;
    match e
    case Mark(va, size) => MarkedCovers(g.table.rows, g.dirty, va, size, a);
    case Capture(_, _, _, _) =>
      if Covers(g.flight.ranges, a) {
        FitCaptures(g.table.rows, g.flight.ranges, i, a);
      }
    case _ =>
  }

  /** After the clearing exactly the bytes the snapshot took are still waiting. */
  lemma {:induction false} ClearKeepsTaken(cfg: Config, g: Gcr, a: int)
    requires cfg.staging > 0 && CanStep(cfg, g, Clear)
    ensures Pending(After(cfg, g, Clear), a) <==> Covers(g.flight.ranges, a)
  {
    EmptyCanonical();
    hide Covers;
  }

  /** The condition is needed: a mark that another thread makes between the two calls is
      dropped without having been taken. */
  lemma {:induction false} MarkBetweenLost(cfg: Config, mem: nat -> int, image: nat -> Cell)
    requires cfg.staging > 0
    ensures var g := Gcr(Table([Alloc(0x1000, 0x1000, At(0), true, false)], 0x1000), [], mem, image, 0, Taken([]));
            && CanStep(cfg, g, Mark(0x1000, 16)) && Covers(After(cfg, g, Mark(0x1000, 16)).dirty, 0x1000)
            && var g' := After(cfg, g, Mark(0x1000, 16));
               CanStep(cfg, g', Clear) && !Pending(After(cfg, g', Clear), 0x1000)
  {
    var g := Gcr(Table([Alloc(0x1000, 0x1000, At(0), true, false)], 0x1000), [], mem, image, 0, Taken([]));
    EmptyCanonical();
    var rows := g.table.rows;
    assert Owns(rows[0], 0x1000);
    MarkedCovers(rows, [], 0x1000, 16, 0x1000);
    hide Marked, Covers;
    ClearKeepsTaken(cfg, After(cfg, g, Mark(0x1000, 16)), 0x1000);
  }

  lemma {:induction false} DirtyGetsCaptured(cfg: Config, states: seq<Gcr>, events: seq<Event>, n: nat, i: nat, a: nat)
    requires Run(cfg, states, events) && n < |states| && CleanCaptures(states, events)
    requires i < |states[n].table.rows| && Owns(states[n].table.rows[i], a)
    requires EverDirty(states, n, i, a)
    ensures Pending(states[n], a) || !LastCaptured(states, events, n, i, a).Never?
  {
    hide Covers, Captures, RangesFit, GcrInv, After;
    if !Covers(states[n].dirty, a) {
      EarlierDirty(cfg, states, events, n, i, a);
      DirtyGetsCaptured(cfg, states, events, n - 1, i, a);
      RunStep(cfg, states, events, n);
      if Pending(states[n - 1], a) {
        PendingStep(cfg, states[n - 1], events[n - 1], i, a);
      }
    }
    hide Run, EverDirty, CanStep, Evolves;
  }

  lemma {:induction false} EarlierDirty(cfg: Config, states: seq<Gcr>, events: seq<Event>, n: nat, i: nat, a: nat)
    requires Run(cfg, states, events) && n < |states|
    requires i < |states[n].table.rows| && Owns(states[n].table.rows[i], a)
    requires EverDirty(states, n, i, a) && !Covers(states[n].dirty, a)
    ensures n > 0 && EverDirty(states, n - 1, i, a)
    ensures i < |states[n - 1].table.rows| && Owns(states[n - 1].table.rows[i], a)
  {
    hide Covers;
    var k :| 0 <= k <= n && i < |states[k].table.rows| && Owns(states[k].table.rows[i], a) && Covers(states[k].dirty, a);
    RunStep(cfg, states, events, n);
    RowsGrow(cfg, states, events, k, n - 1);
    hide Run, GcrInv, CanStep, After;
  }

  lemma {:induction false} RowsGrow(cfg: Config, states: seq<Gcr>, events: seq<Event>, k: nat, n: nat)
    requires Run(cfg, states, events) && k <= n < |states|
    ensures |states[k].table.rows| <= |states[n].table.rows|
  {
    if k < n {
      RowsGrow(cfg, states, events, k, n - 1);
      RunStep(cfg, states, events, n);
      hide Run, GcrInv, CanStep, After;
    }
  }

  /** A captured byte that is not pending still has its captured value. */
  lemma {:induction false} CaptureStaysFresh(cfg: Config, states: seq<Gcr>, events: seq<Event>, n: nat, i: nat, a: nat)
    requires Run(cfg, states, events) && n < |states| && CleanCaptures(states, events)
    requires i < |states[n].table.rows| && Owns(states[n].table.rows[i], a)
    requires LastCaptured(states, events, n, i, a).Value? && !Pending(states[n], a)
    ensures states[n].mem(a) == LastCaptured(states, events, n, i, a).value
  {
    hide Covers, Captures, RangesFit;
    if n > 0 {
      var g, e := states[n - 1], events[n - 1];
      RunStep(cfg, states, events, n);
      if i >= |g.table.rows| {
        UnrecordedNeverCaptured(cfg, states, events, n - 1, i, a);
      }
      hide Run;
      if e.Capture? && g.flight.Snapped? && Captures(g.table.rows, g.flight.ranges, i, a) {
      } else {
        if Pending(g, a) {
          PendingStep(cfg, g, e, i, a);
        }
        CaptureStaysFresh(cfg, states, events, n - 1, i, a);
        hide GcrInv;
      }
    }
  }

  /** The incremental image is consistent: at the end of every round the place of
      each byte that was ever dirty in a live allocation holds the byte's current
      device value, unless it was marked again since the snapshot or the last copy of it
      failed. */
  lemma {:induction false} RoundConsistent(cfg: Config, states: seq<Gcr>, events: seq<Event>, n: nat, i: nat, a: nat)
    requires Run(cfg, states, events) && n < |states| && CleanCaptures(states, events)
    requires states[n].flight.Copied? && !Covers(states[n].dirty, a)
    requires i < |states[n].table.rows| && Owns(states[n].table.rows[i], a) && states[n].table.rows[i].slot.At?
    requires EverDirty(states, n, i, a) && !LastCaptured(states, events, n, i, a).Lost?
    ensures var c := states[n].image(states[n].table.rows[i].slot.offset + (a - states[n].table.rows[i].va));
            c.Sealed? && c.byte == states[n].mem(a)
  {
    hide Run, CleanCaptures, EverDirty, Covers;
    DirtyGetsCaptured(cfg, states, events, n, i, a);
    CaptureStaysFresh(cfg, states, events, n, i, a);
    ImageHoldsLastCapture(cfg, states, events, n, i, a, states[n].table.rows[i].slot.offset + (a - states[n].table.rows[i].va));
  }

  /** The condition on ranges is needed: marking two neighbouring allocations in full
      merges the marks into one range, and the second allocation is not captured. */
  lemma {:induction false} AdjacentMarksLost()
    ensures var rows := [Alloc(0x1000, 0x1000, At(0), true, false), Alloc(0x2000, 0x1000, At(0x1000), true, false)];
            var dirty := Marked(rows, Marked(rows, [], 0x1000, 0x1000), 0x2000, 0x1000);
            && SlotsApart(Table(rows, 0x2000), 0x2000) && LiveApart(rows)
            && Owns(rows[1], 0x2000) && Covers(dirty, 0x2000) && !Captures(rows, dirty, 1, 0x2000)
  {
    var rows := [Alloc(0x1000, 0x1000, At(0), true, false), Alloc(0x2000, 0x1000, At(0x1000), true, false)];
    assert FindAlloc(rows, 0x1000) == 0 && FindAlloc(rows, 0x2000) == 1;
    var d1 := Marked(rows, [], 0x1000, 0x1000);
    assert d1 == [Range(0x1000, 0x2000)];
    assert LowerBound(d1, 0x2000) == 0 && UpperBound(d1, 0x3000) == 1 by {
      assert d1[1..] == [];
    }
    assert d1[0..1] == d1 && d1[..0] == [];
    assert MergedStart(d1, 0x2000) == 0x1000 && MergedEnd(d1, 0x3000) == 0x3000;
    var d2 := Marked(rows, d1, 0x2000, 0x1000);
    assert d2 == [Range(0x1000, 0x3000)];
    assert d2[0].start <= 0x2000 < d2[0].end;
  }

  // ------------------------------------------------------------------------ IVs

  /** IV of page `q` of slot `s` in round `r`. */
  function PageIv(r: nat, packs: seq<Pack>, s: nat, q: nat): nat
    requires s < |packs|
  {
    SlotIv(r * IV_STRIDE, packs, s) + q
  }

  lemma {:induction false} SlotIvShift(base: nat, packs: seq<Pack>, s: nat)
    requires s <= |packs|
    ensures SlotIv(base, packs, s) == base + SlotIv(0, packs, s)
  {
    if s > 0 {
      SlotIvShift(base, packs, s - 1);
    }
  }

  /** Two different page encryptions, of one round or of two, never share a counter, as
      long as every round has fewer than 2^32 pages. */
  lemma {:induction false} RoundCountersUnique(r1: nat, packs1: seq<Pack>, s1: nat, q1: nat, r2: nat, packs2: seq<Pack>, s2: nat, q2: nat)
    requires s1 < |packs1| && q1 < Pages(packs1[s1].total) && SlotIv(0, packs1, |packs1|) < IV_STRIDE
    requires s2 < |packs2| && q2 < Pages(packs2[s2].total) && SlotIv(0, packs2, |packs2|) < IV_STRIDE
    requires r1 == r2 ==> packs1 == packs2
    requires (r1, s1, q1) != (r2, s2, q2)
    ensures PageIv(r1, packs1, s1, q1) != PageIv(r2, packs2, s2, q2)
  {
    SlotIvShift(r1 * IV_STRIDE, packs1, s1);
    SlotIvShift(r2 * IV_STRIDE, packs2, s2);
    SlotIvGrows(0, packs1, s1 + 1, |packs1|);
    SlotIvGrows(0, packs2, s2 + 1, |packs2|);
    if r1 == r2 {
      if s1 < s2 {
        SlotIvGrows(0, packs1, s1 + 1, s2);
      } else if s2 < s1 {
        SlotIvGrows(0, packs1, s2 + 1, s1);
      }
    }
  }

  lemma {:induction false} CounterBelow(r: nat, packs: seq<Pack>, s: nat, q: nat)
    requires r < IV_STRIDE && s < |packs| && q < Pages(packs[s].total) && SlotIv(0, packs, |packs|) < IV_STRIDE
    ensures U64(PageIv(r, packs, s, q))
  {
    SlotIvShift(r * IV_STRIDE, packs, s);
    SlotIvGrows(0, packs, s + 1, |packs|);
  }

  /** Nor do they share the twelve bytes of an IV while there are fewer than 2^32 rounds,
      as section 8 of NIST SP 800-38D asks under one key. */
  lemma {:induction false} RoundIvsUnique(r1: nat, packs1: seq<Pack>, s1: nat, q1: nat, r2: nat, packs2: seq<Pack>, s2: nat, q2: nat)
    requires r1 < IV_STRIDE && s1 < |packs1| && q1 < Pages(packs1[s1].total) && SlotIv(0, packs1, |packs1|) < IV_STRIDE
    requires r2 < IV_STRIDE && s2 < |packs2| && q2 < Pages(packs2[s2].total) && SlotIv(0, packs2, |packs2|) < IV_STRIDE
    requires r1 == r2 ==> packs1 == packs2
    requires (r1, s1, q1) != (r2, s2, q2)
    ensures PageCrypto.BuildIv(PageIv(r1, packs1, s1, q1)) != PageCrypto.BuildIv(PageIv(r2, packs2, s2, q2))
  {
    RoundCountersUnique(r1, packs1, s1, q1, r2, packs2, s2, q2);
    CounterBelow(r1, packs1, s1, q1);
    CounterBelow(r2, packs2, s2, q2);
    hide PageIv;
    if PageCrypto.BuildIv(PageIv(r1, packs1, s1, q1)) == PageCrypto.BuildIv(PageIv(r2, packs2, s2, q2)) {
      PageCrypto.BuildIvInjective(PageIv(r1, packs1, s1, q1), PageIv(r2, packs2, s2, q2));
    }
  }
}
