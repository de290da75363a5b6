/** One stop-and-copy round of GCR: the packed slots go through the ping-pong
    pipeline, are sealed page by page, and are scattered over the image. */
module GcrRound {
  import opened Chunking
  import opened GcrPacking
  import opened PingPong

  const PAGE: nat := 0x20_0000

  /** A staging buffer with the plan that travels with it; bytes of earlier slots
      stay in it until overwritten. */
  datatype Staged = Staged(bytes: nat -> int, plan: nat, copied: nat, iv: nat)

  /** An image byte: the device byte `byte`, sealed at place `at` of the page
      encrypted under `iv`. */
  datatype Cell = Blank | Sealed(iv: nat, at: nat, byte: int)

  function Pages(total: nat): nat { (total + PAGE - 1) / PAGE }

  /** First IV counter of pack `s` in a round that starts at `base`. */
  function SlotIv(base: nat, packs: seq<Pack>, s: nat): nat
    requires s <= |packs|
  {
    if s == 0 then base else SlotIv(base, packs, s - 1) + Pages(packs[s - 1].total)
  }

  /** `lost` holds the chunks whose copy failed; the source only counts them. */
  datatype Round = Round(pipe: Pipe<Staged>, iv: nat, lost: set<nat>)

  datatype Event =
    | Open                          // producer: wait for the slot, start it
    | CopyChunk                     // producer: one device-to-host copy
    | CopyFails(junk: nat -> int)   // the copy fails and leaves anything in the chunk's place
    | HandOver                      // producer: publish plan and IV
    | Advance(step: Step<Staged>)   // Finish, or a consumer step

  function Buffer(r: Round): Staged
    requires |r.pipe.buf| == 2
  {
    r.pipe.buf[r.pipe.produced % 2]
  }

  function CopyInto(bytes: nat -> int, c: Chunk, mem: nat -> int): nat -> int {
    (x: nat) => if c.packOff <= x < c.packOff + c.size then mem(c.va + (x - c.packOff)) else bytes(x)
  }

  predicate Copying(packs: seq<Pack>, r: Round)
    requires |r.pipe.buf| == 2
  {
    r.pipe.filling && r.pipe.produced < |packs| && Buffer(r).copied < packs[r.pipe.produced].count
  }

  ghost predicate CanStep(packs: seq<Pack>, r: Round, e: Event)
    requires |r.pipe.ready| == 2 && |r.pipe.buf| == 2
  {
    match e
    case Open => Enabled(r.pipe, |packs|, Begin)
    case CopyChunk => Copying(packs, r)
    case CopyFails(_) => Copying(packs, r)
    case HandOver => r.pipe.filling && r.pipe.produced < |packs| && Buffer(r).copied == packs[r.pipe.produced].count
    case Advance(s) => Enabled(r.pipe, |packs|, s) && !s.Begin? && !s.Fill? && !s.HandOff?
                       && (s.Finish? ==> r.pipe.produced == |packs|)
  }

  predicate PacksFit(chunks: seq<Chunk>, packs: seq<Pack>) {
    forall k :: 0 <= k < |packs| ==> packs[k].first + packs[k].count <= |chunks|
  }

  /** The next chunk of the open slot with what was read of it from `mem`. */
  function Copied(chunks: seq<Chunk>, packs: seq<Pack>, mem: nat -> int, r: Round): Round
    requires |r.pipe.ready| == 2 && |r.pipe.buf| == 2 && Copying(packs, r) && PacksFit(chunks, packs)
  {
    var b := Buffer(r);
    var c := chunks[packs[r.pipe.produced].first + b.copied];
    r.(pipe := Apply(r.pipe, Fill(b.(bytes := CopyInto(b.bytes, c, mem), copied := b.copied + 1))))
  }

  ghost function After(chunks: seq<Chunk>, packs: seq<Pack>, mem: nat -> int, r: Round, e: Event): Round
    requires |r.pipe.ready| == 2 && |r.pipe.buf| == 2 && CanStep(packs, r, e)
    requires PacksFit(chunks, packs)
  {
    match e
    case Open => r.(pipe := Apply(Apply(r.pipe, Begin), Fill(Buffer(r).(copied := 0))))
    case CopyChunk => Copied(chunks, packs, mem, r)
    case CopyFails(junk) =>
      Copied(chunks, packs, junk, r).(lost := r.lost + {packs[r.pipe.produced].first + Buffer(r).copied})
    case HandOver =>
      Round(Apply(Apply(r.pipe, Fill(Buffer(r).(plan := r.pipe.produced, iv := r.iv))), HandOff),
            r.iv + Pages(packs[r.pipe.produced].total), r.lost)
    case Advance(s) => r.(pipe := Apply(r.pipe, s))
  }

  /** The first `m` chunks of pack `p` that were not lost are in the buffer, at their pack
      offsets. */
  ghost predicate Holds(b: nat -> int, chunks: seq<Chunk>, p: Pack, m: nat, mem: nat -> int, lost: set<nat>)
    requires p.first + m <= |chunks|
  {
    forall j, x: nat :: p.first <= j < p.first + m && j !in lost && chunks[j].packOff <= x < chunks[j].packOff + chunks[j].size ==>
      b(x) == mem(chunks[j].va + (x - chunks[j].packOff))
  }

  ghost predicate HandedOk(b: Staged, chunks: seq<Chunk>, packs: seq<Pack>, base: nat, s: nat, mem: nat -> int, lost: set<nat>)
    requires PacksFit(chunks, packs) && s < |packs|
  {
    b.plan == s && b.iv == SlotIv(base, packs, s) && Holds(b.bytes, chunks, packs[s], packs[s].count, mem, lost)
  }

  /** More losses ask for less. */
  lemma {:induction false} HandedLess(b: Staged, chunks: seq<Chunk>, packs: seq<Pack>, base: nat, s: nat, mem: nat -> int, lost: set<nat>, j: nat)
    requires PacksFit(chunks, packs) && s < |packs| && HandedOk(b, chunks, packs, base, s, mem, lost)
    ensures HandedOk(b, chunks, packs, base, s, mem, lost + {j})
  {
  }

  ghost predicate RoundInv(chunks: seq<Chunk>, packs: seq<Pack>, base: nat, mem: nat -> int, r: Round)
    requires PacksFit(chunks, packs)
  {
    && Inv(r.pipe, |packs|)
    && (r.pipe.done ==> r.pipe.produced == |packs|)
    && r.iv == SlotIv(base, packs, r.pipe.produced)
    && (forall s :: 0 <= s < r.pipe.produced ==> HandedOk(r.pipe.handed[s], chunks, packs, base, s, mem, r.lost))
    && (r.pipe.filling ==>
          && Buffer(r).copied <= packs[r.pipe.produced].count
          && Holds(Buffer(r).bytes, chunks, packs[r.pipe.produced], Buffer(r).copied, mem, r.lost))
  }

  lemma {:induction false} PackedFit(chunks: seq<Chunk>, packs: seq<Pack>, staging: nat)
    requires WellPacked(chunks, packs, staging)
    ensures PacksFit(chunks, packs)
  {
    assert forall k :: 0 <= k < |packs| ==> PackOk(chunks, packs[k], staging);
  }

  /** A later chunk of the pack lands past the earlier ones; what it lands with counts only
      when it is not lost. */
  lemma {:induction false} CopyHolds(b: nat -> int, chunks: seq<Chunk>, p: Pack, m: nat, staging: nat, mem: nat -> int,
                                     lost: set<nat>, read: nat -> int, lost': set<nat>)
    requires PackOk(chunks, p, staging) && m < p.count && Holds(b, chunks, p, m, mem, lost)
    requires lost <= lost' && (p.first + m in lost' || read == mem)
    ensures Holds(CopyInto(b, chunks[p.first + m], read), chunks, p, m + 1, mem, lost')
  {
    assert p.first + p.count <= |chunks|;
    hide PackOk;
    var c := chunks[p.first + m];
    var b' := CopyInto(b, c, read);
    forall j, x: nat | p.first <= j < p.first + m + 1 && j !in lost' && chunks[j].packOff <= x < chunks[j].packOff + chunks[j].size
      ensures b'(x) == mem(chunks[j].va + (x - chunks[j].packOff))
    {
      if j < p.first + m {
        PackedDisjoint(chunks, p, staging, j, p.first + m);
      }
    }
  }

  lemma {:induction false} OpenKeepsRound(chunks: seq<Chunk>, packs: seq<Pack>, base: nat, mem: nat -> int, r: Round)
    requires PacksFit(chunks, packs) && RoundInv(chunks, packs, base, mem, r) && CanStep(packs, r, Open)
    ensures RoundInv(chunks, packs, base, mem, After(chunks, packs, mem, r, Open))
  {
    var r' := After(chunks, packs, mem, r, Open);
    var reset := Fill(Buffer(r).(copied := 0));
    StepKeepsInv(r.pipe, |packs|, Begin);
    StepKeepsInv(Apply(r.pipe, Begin), |packs|, reset);
    assert r'.pipe.handed == r.pipe.handed && r'.pipe.produced == r.pipe.produced;
    hide Inv, HandedOk;
  }

  lemma {:induction false} CopyKeepsRound(chunks: seq<Chunk>, packs: seq<Pack>, staging: nat, base: nat, mem: nat -> int, r: Round, e: Event)
    requires WellPacked(chunks, packs, staging) && PacksFit(chunks, packs) && (e.CopyChunk? || e.CopyFails?)
    requires RoundInv(chunks, packs, base, mem, r) && CanStep(packs, r, e)
    ensures RoundInv(chunks, packs, base, mem, After(chunks, packs, mem, r, e))
  {
    hide PackOk, Follows, Holds, HandedOk;
    var r' := After(chunks, packs, mem, r, e);
    var at, b := r.pipe.produced, Buffer(r);
    var c := chunks[packs[at].first + b.copied];
    var read := if e.CopyChunk? then mem else e.junk;
    CopyHolds(b.bytes, chunks, packs[at], b.copied, staging, mem, r.lost, read, r'.lost);
    hide WellPacked;
    StepKeepsInv(r.pipe, |packs|, Fill(b.(bytes := CopyInto(b.bytes, c, read), copied := b.copied + 1)));
    assert r'.pipe.handed == r.pipe.handed && r'.pipe.produced == at;
    hide Inv;
    forall s | 0 <= s < at ensures HandedOk(r'.pipe.handed[s], chunks, packs, base, s, mem, r'.lost) {
      HandedLess(r.pipe.handed[s], chunks, packs, base, s, mem, r.lost, packs[at].first + b.copied);
    }
  }

  lemma {:induction false} HandOverKeepsRound(chunks: seq<Chunk>, packs: seq<Pack>, base: nat, mem: nat -> int, r: Round)
    requires PacksFit(chunks, packs) && RoundInv(chunks, packs, base, mem, r) && CanStep(packs, r, HandOver)
    ensures RoundInv(chunks, packs, base, mem, After(chunks, packs, mem, r, HandOver))
  {
    hide Holds;
    var r' := After(chunks, packs, mem, r, HandOver);
    var at := r.pipe.produced;
    var full := Buffer(r).(plan := at, iv := r.iv);
    StepKeepsInv(r.pipe, |packs|, Fill(full));
    StepKeepsInv(Apply(r.pipe, Fill(full)), |packs|, HandOff);
    assert r'.pipe.handed == r.pipe.handed + [full];
    assert !r'.pipe.filling && r'.pipe.produced == at + 1 && !r'.pipe.done;
    hide Inv, Apply;
  }

  lemma {:induction false} RoundKeepsInv(chunks: seq<Chunk>, packs: seq<Pack>, staging: nat, base: nat, mem: nat -> int, r: Round, e: Event)
    requires WellPacked(chunks, packs, staging) && PacksFit(chunks, packs)
    requires RoundInv(chunks, packs, base, mem, r) && CanStep(packs, r, e)
    ensures RoundInv(chunks, packs, base, mem, After(chunks, packs, mem, r, e))
  {
    hide WellPacked;
    match e
    case Open => OpenKeepsRound(chunks, packs, base, mem, r);
    case CopyChunk => CopyKeepsRound(chunks, packs, staging, base, mem, r, e);
    case CopyFails(_) => CopyKeepsRound(chunks, packs, staging, base, mem, r, e);
    case HandOver => HandOverKeepsRound(chunks, packs, base, mem, r);
    case Advance(s) =>
      StepKeepsInv(r.pipe, |packs|, s);
      var r' := After(chunks, packs, mem, r, e);
      assert r'.pipe.handed == r.pipe.handed && r'.pipe.produced == r.pipe.produced && r'.pipe.buf == r.pipe.buf;
      hide Inv, Holds, HandedOk, SlotIv;
  }

  ghost predicate RoundRun(chunks: seq<Chunk>, packs: seq<Pack>, base: nat, mem: nat -> int,
                           states: seq<Round>, events: seq<Event>)
  {
    && PacksFit(chunks, packs)
    && |states| == |events| + 1
    && (exists z: Staged :: states[0] == Round(PingPong.Init(z), base, {}))
    && forall i :: 0 <= i < |events| ==> RoundNext(chunks, packs, mem, states[i], events[i], states[i + 1])
  }

  ghost predicate RoundNext(chunks: seq<Chunk>, packs: seq<Pack>, mem: nat -> int, r: Round, e: Event, r': Round)
    requires PacksFit(chunks, packs)
  {
    |r.pipe.ready| == 2 && |r.pipe.buf| == 2 && CanStep(packs, r, e) && r' == After(chunks, packs, mem, r, e)
  }

  lemma {:induction false} RunKeepsRound(chunks: seq<Chunk>, packs: seq<Pack>, staging: nat, base: nat, mem: nat -> int,
                                         states: seq<Round>, events: seq<Event>, n: nat)
    requires WellPacked(chunks, packs, staging) && RoundRun(chunks, packs, base, mem, states, events) && n < |states|
    ensures RoundInv(chunks, packs, base, mem, states[n])
  {
    if n == 0 {
      var z: Staged :| states[0] == Round(PingPong.Init(z), base, {});
      InitInv(z, |packs|);
    } else {
      RunKeepsRound(chunks, packs, staging, base, mem, states, events, n - 1);
      assert RoundNext(chunks, packs, mem, states[n - 1], events[n - 1], states[n]);
      RoundKeepsInv(chunks, packs, staging, base, mem, states[n - 1], events[n - 1]);
    }
  }

  // -------------------------------------------------------------- write-back

  function Seal(b: Staged, pos: nat): Cell {
    Sealed(b.iv + pos / PAGE, pos % PAGE, b.bytes(pos))
  }

  /** Image byte `x`, `below` before, after the first `m` chunks of a pack are
      scattered. */
  function ScatterCell(below: Cell, chunks: seq<Chunk>, p: Pack, b: Staged, m: nat, x: nat): Cell
    requires p.first + m <= |chunks|
  {
    if m == 0 then below
    else
      var c := chunks[p.first + m - 1];
      if c.img <= x < c.img + c.size then Seal(b, c.packOff + (x - c.img))
      else ScatterCell(below, chunks, p, b, m - 1, x)
  }

  /** Image byte `x` after the first `n` packs are written back. */
  function ImageCell(before: nat -> Cell, chunks: seq<Chunk>, packs: seq<Pack>, out: seq<Staged>, n: nat, x: nat): Cell
    requires n <= |packs| && n <= |out|
    requires PacksFit(chunks, packs)
  {
    if n == 0 then before(x)
    else ScatterCell(ImageCell(before, chunks, packs, out, n - 1, x), chunks, packs[n - 1], out[n - 1], packs[n - 1].count, x)
  }

  /** The consumer's scatter loop over one handed slot, in place. */
  method ScatterBack(image: array<Cell>, chunks: seq<Chunk>, p: Pack, b: Staged)
    requires p.first + p.count <= |chunks|
    requires forall j :: p.first <= j < p.first + p.count ==> chunks[j].img + chunks[j].size <= image.Length
    modifies image
    ensures forall x :: 0 <= x < image.Length ==>
              image[x] == ScatterCell(old(image[x]), chunks, p, b, p.count, x)
  {
    for k := 0 to p.count
      invariant forall x :: 0 <= x < image.Length ==> image[x] == ScatterCell(old(image[x]), chunks, p, b, k, x)
    {
      var c := chunks[p.first + k];
      ghost var was := image[..];
      for y := 0 to c.size
        invariant forall x :: 0 <= x < image.Length ==>
          image[x] == if c.img <= x < c.img + y then Seal(b, c.packOff + (x - c.img)) else was[x]
      {
        image[c.img + y] := Seal(b, c.packOff + y);
      }
    }
  }

  predicate Reaches(c: Chunk, x: int) {
    c.img <= x < c.img + c.size
  }

  ghost predicate ReachedIn(chunks: seq<Chunk>, lo: nat, hi: nat, x: int) {
    exists j :: lo <= j < hi && j < |chunks| && Reaches(chunks[j], x)
  }

  /** Every chunk that reaches image byte `x` takes device byte `a` there. */
  ghost predicate OneSource(chunks: seq<Chunk>, x: int, a: int) {
    forall j :: 0 <= j < |chunks| && Reaches(chunks[j], x) ==> chunks[j].va + (x - chunks[j].img) == a
  }

  /** No lost chunk was to bring device byte `a`. */
  ghost predicate Came(chunks: seq<Chunk>, lost: set<nat>, a: int) {
    forall j :: 0 <= j < |chunks| && j in lost ==> !(chunks[j].va <= a < chunks[j].va + chunks[j].size)
  }

  lemma {:induction false} InsidePack(chunks: seq<Chunk>, p: Pack, j: nat, staging: nat)
    requires PackOk(chunks, p, staging) && p.first <= j < p.first + p.count
    ensures p.first + p.count <= |chunks| && chunks[j].packOff + chunks[j].size <= p.total
  {
    PackPrefix(chunks, p.first, j, p.first + p.count);
  }

  lemma {:induction false} SealDelivers(chunks: seq<Chunk>, p: Pack, b: Staged, j: nat, x: nat, staging: nat, mem: nat -> int,
                                        lost: set<nat>, a: nat)
    requires PackOk(chunks, p, staging) && Holds(b.bytes, chunks, p, p.count, mem, lost)
    requires p.first <= j < p.first + p.count && Reaches(chunks[j], x) && OneSource(chunks, x, a)
    ensures var c := Seal(b, chunks[j].packOff + (x - chunks[j].img));
            c.Sealed? && b.iv <= c.iv < b.iv + Pages(p.total) && (Came(chunks, lost, a) ==> c.byte == mem(a))
  {
    InsidePack(chunks, p, j, staging);
    hide PackOk, Pages;
    PageInside(chunks[j].packOff + (x - chunks[j].img), p.total);
  }

  lemma {:induction false} ScatterDelivers(below: Cell, chunks: seq<Chunk>, p: Pack, b: Staged, m: nat, x: nat,
                                           staging: nat, mem: nat -> int, lost: set<nat>, a: nat)
    requires PackOk(chunks, p, staging) && m <= p.count && p.first + p.count <= |chunks|
    requires Holds(b.bytes, chunks, p, p.count, mem, lost)
    requires OneSource(chunks, x, a)
    ensures var c := ScatterCell(below, chunks, p, b, m, x);
            if ReachedIn(chunks, p.first, p.first + m, x)
            then c.Sealed? && b.iv <= c.iv < b.iv + Pages(p.total) && (Came(chunks, lost, a) ==> c.byte == mem(a))
            else c == below
  {
    hide PackOk, Holds, OneSource, Seal, Pages, ReachedIn, Came;
    ReachedStep(chunks, p.first, p.first + m, x);
    if m > 0 {
      ScatterDelivers(below, chunks, p, b, m - 1, x, staging, mem, lost, a);
      if Reaches(chunks[p.first + m - 1], x) {
        SealDelivers(chunks, p, b, p.first + m - 1, x, staging, mem, lost, a);
      }
    }
  }

  lemma {:induction false} ReachedStep(chunks: seq<Chunk>, lo: nat, hi: nat, x: int)
    requires lo <= hi <= |chunks|
    ensures ReachedIn(chunks, lo, hi, x) <==> lo < hi && (ReachedIn(chunks, lo, hi - 1, x) || Reaches(chunks[hi - 1], x))
  {
  }

  lemma {:induction false} PageInside(off: nat, total: nat)
    requires off < total
    ensures off / PAGE < Pages(total)
  {
  }

  /** What the first `n` packs leave in the image. */
  lemma {:induction false} ImageDelivers(before: nat -> Cell, chunks: seq<Chunk>, packs: seq<Pack>, out: seq<Staged>,
                                         n: nat, x: nat, staging: nat, base: nat, mem: nat -> int, lost: set<nat>, a: nat)
    requires WellPacked(chunks, packs, staging) && PacksFit(chunks, packs) && n <= |packs| && n <= |out|
    requires forall s :: 0 <= s < n ==> HandedOk(out[s], chunks, packs, base, s, mem, lost)
    requires OneSource(chunks, x, a)
    ensures PackEnd(packs, n) <= |chunks|
    ensures var c := ImageCell(before, chunks, packs, out, n, x);
            if ReachedIn(chunks, 0, PackEnd(packs, n), x)
            then c.Sealed? && base <= c.iv < SlotIv(base, packs, n) && (Came(chunks, lost, a) ==> c.byte == mem(a))
            else c == before(x)
  {
    if n > 0 {
      ImageDelivers(before, chunks, packs, out, n - 1, x, staging, base, mem, lost, a);
      PackSpan(chunks, packs, staging, n - 1);
      SlotIvGrows(base, packs, 0, n - 1);
      assert PackOk(chunks, packs[n - 1], staging) && HandedOk(out[n - 1], chunks, packs, base, n - 1, mem, lost);
      ScatterDelivers(ImageCell(before, chunks, packs, out, n - 1, x), chunks, packs[n - 1], out[n - 1],
                      packs[n - 1].count, x, staging, mem, lost, a);
      hide PackOk, WellPacked, Holds, ScatterCell, OneSource, PacksFit, Came;
    }
  }

  lemma {:induction false} SlotIvGrows(base: nat, packs: seq<Pack>, s: nat, t: nat)
    requires s <= t <= |packs|
    ensures SlotIv(base, packs, s) <= SlotIv(base, packs, t)
  {
    if s < t {
      SlotIvGrows(base, packs, s, t - 1);
    }
  }

  /** A drained round seals every carried byte under an IV of the round, with its device
      value when no copy of it failed, and leaves the other image bytes alone; whatever the
      schedule. */
  lemma {:induction false} RoundDelivers(before: nat -> Cell, chunks: seq<Chunk>, packs: seq<Pack>, staging: nat, base: nat, mem: nat -> int,
                      states: seq<Round>, events: seq<Event>, x: nat, a: nat)
    requires WellPacked(chunks, packs, staging) && RoundRun(chunks, packs, base, mem, states, events)
    requires states[|states| - 1].pipe.consumer.Exited?
    requires OneSource(chunks, x, a)
    ensures var out := states[|states| - 1].pipe.out;
            && |out| == |packs|
            && var c := ImageCell(before, chunks, packs, out, |packs|, x);
               if ReachedIn(chunks, 0, |chunks|, x)
               then c.Sealed? && base <= c.iv < SlotIv(base, packs, |packs|)
                    && (Came(chunks, states[|states| - 1].lost, a) ==> c.byte == mem(a))
               else c == before(x)
  {
    hide RoundNext, PackOk, Holds, OneSource, Follows, Came;
    RunKeepsRound(chunks, packs, staging, base, mem, states, events, |states| - 1);
    var last := states[|states| - 1];
    assert last.pipe.out == last.pipe.handed;
    ImageDelivers(before, chunks, packs, last.pipe.out, |packs|, x, staging, base, mem, last.lost, a);
    assert PackEnd(packs, |packs|) == |chunks|;
  }

  // ---------------------------------------------------------------- progress

  /** Copies still to launch, plus what the pipeline has left to do. */
  function Work(chunks: seq<Chunk>, packs: seq<Pack>, r: Round): int
    requires |r.pipe.buf| == 2 && r.pipe.produced <= |packs|
  {
    |chunks| - PackEnd(packs, r.pipe.produced) - (if r.pipe.filling then Buffer(r).copied else 0)
    + Remaining(r.pipe, |packs|)
  }

  /** The round's invariant over well-made packs. */
  ghost predicate FittedInv(chunks: seq<Chunk>, packs: seq<Pack>, staging: nat, base: nat, mem: nat -> int, r: Round)
    requires WellPacked(chunks, packs, staging)
  {
    PackedFit(chunks, packs, staging);
    RoundInv(chunks, packs, base, mem, r)
  }

  /** An event of a round over packs that fit leaves less work, and never less than none. */
  lemma {:induction false} FittedShorten(chunks: seq<Chunk>, packs: seq<Pack>, staging: nat, base: nat, mem: nat -> int, r: Round, e: Event)
    requires WellPacked(chunks, packs, staging) && PacksFit(chunks, packs) && RoundInv(chunks, packs, base, mem, r)
    requires CanStep(packs, r, e)
    ensures var r' := After(chunks, packs, mem, r, e);
            && RoundInv(chunks, packs, base, mem, r') && |r'.pipe.buf| == 2 && r'.pipe.produced <= |packs|
            && 0 <= Work(chunks, packs, r') < Work(chunks, packs, r)
  {
    hide PackOk, Holds, SlotIv, Follows, HandedOk;
    RoundKeepsInv(chunks, packs, staging, base, mem, r, e);
    var r' := After(chunks, packs, mem, r, e);
    if r.pipe.produced < |packs| {
      PackSpan(chunks, packs, staging, r.pipe.produced);
    }
    if r'.pipe.produced > 0 {
      PackSpan(chunks, packs, staging, r'.pipe.produced - 1);
    }
    hide WellPacked;
    match e
    case Open => StepsShorten(r.pipe, |packs|, Begin);
    case HandOver =>
      var full := Fill(Buffer(r).(plan := r.pipe.produced, iv := r.iv));
      StepKeepsInv(r.pipe, |packs|, full);
      StepsShorten(Apply(r.pipe, full), |packs|, HandOff);
    case Advance(s) => StepsShorten(r.pipe, |packs|, s);
    case _ =>
  }

  /** Every event of a round, a failing copy included, leaves less work. */
  lemma {:induction false} EventsShorten(chunks: seq<Chunk>, packs: seq<Pack>, staging: nat, base: nat, mem: nat -> int, r: Round, e: Event)
    requires WellPacked(chunks, packs, staging) && FittedInv(chunks, packs, staging, base, mem, r)
    requires CanStep(packs, r, e)
    ensures PacksFit(chunks, packs)
    ensures var r' := After(chunks, packs, mem, r, e);
            && FittedInv(chunks, packs, staging, base, mem, r') && |r'.pipe.buf| == 2 && r'.pipe.produced <= |packs|
            && 0 <= Work(chunks, packs, r') < Work(chunks, packs, r)
  {
    hide WellPacked, RoundInv, CanStep, After, Work;
    PackedFit(chunks, packs, staging);
    FittedShorten(chunks, packs, staging, base, mem, r, e);
  }

  /** Until the consumer exits some event other than a failure is enabled: no schedule
      deadlocks. */
  lemma {:induction false} RoundProgress(chunks: seq<Chunk>, packs: seq<Pack>, staging: nat, base: nat, mem: nat -> int, r: Round) returns (e: Event)
    requires WellPacked(chunks, packs, staging) && FittedInv(chunks, packs, staging, base, mem, r)
    requires !r.pipe.consumer.Exited?
    ensures CanStep(packs, r, e) && !e.CopyFails?
    ensures var r' := After(chunks, packs, mem, r, e);
            && FittedInv(chunks, packs, staging, base, mem, r') && |r'.pipe.buf| == 2 && r'.pipe.produced <= |packs|
            && 0 <= Work(chunks, packs, r') < Work(chunks, packs, r)
  {
    PackedFit(chunks, packs, staging);
    hide WellPacked, Holds, SlotIv, HandedOk, Work;
    var s := Progress(r.pipe, |packs|);
    e := match s
         case Begin => Open
         case HandOff => if Buffer(r).copied < packs[r.pipe.produced].count then CopyChunk else HandOver
         case _ => Advance(s);
    EventsShorten(chunks, packs, staging, base, mem, r, e);
  }

  /** Every schedule ends: no run of a round has more events than a copy for each chunk,
      five for each slot and two. */
  lemma {:induction false} RoundEnds(chunks: seq<Chunk>, packs: seq<Pack>, staging: nat, base: nat, mem: nat -> int,
                                     states: seq<Round>, events: seq<Event>, n: nat)
    requires WellPacked(chunks, packs, staging) && RoundRun(chunks, packs, base, mem, states, events) && n < |states|
    ensures |states[n].pipe.buf| == 2 && states[n].pipe.produced <= |packs|
    ensures 0 <= Work(chunks, packs, states[n]) <= |chunks| + 5 * |packs| + 2 - n
  {
    hide WellPacked, Holds, SlotIv, HandedOk, CanStep, After;
    RunKeepsRound(chunks, packs, staging, base, mem, states, events, n);
    if n == 0 {
      var z: Staged :| states[0] == Round(PingPong.Init(z), base, {});
    } else {
      RoundEnds(chunks, packs, staging, base, mem, states, events, n - 1);
      RunKeepsRound(chunks, packs, staging, base, mem, states, events, n - 1);
      assert RoundNext(chunks, packs, mem, states[n - 1], events[n - 1], states[n]);
      hide Work, RoundInv;
      FittedShorten(chunks, packs, staging, base, mem, states[n - 1], events[n - 1]);
    }
  }

  // ------------------------------------------------------------ failed copies

  /** A round of one slot with one chunk whose copy fails, event by event. */
  function LostRound(b: Staged, z: Staged, k: nat): Round
    requires k <= 8
  {
    var full := b.(copied := 1, plan := 0, iv := 0);
    match k
    case 0 => Round(Pipe([false, false], [z, z], 0, false, false, [], 0, Waiting, []), 0, {})
    case 1 => Round(Pipe([false, false], [z.(copied := 0), z], 0, true, false, [], 0, Waiting, []), 0, {})
    case 2 => Round(Pipe([false, false], [b.(copied := 1), z], 0, true, false, [], 0, Waiting, []), 0, {0})
    case 3 => Round(Pipe([true, false], [full, z], 1, false, false, [full], 0, Waiting, []), 1, {0})
    case 4 => Round(Pipe([true, false], [full, z], 1, false, true, [full], 0, Waiting, []), 1, {0})
    case 5 => Round(Pipe([true, false], [full, z], 1, false, true, [full], 0, Reading, []), 1, {0})
    case 6 => Round(Pipe([true, false], [full, z], 1, false, true, [full], 0, Consumer.Written, [full]), 1, {0})
    case 7 => Round(Pipe([false, false], [full, z], 1, false, true, [full], 1, Waiting, [full]), 1, {0})
    case 8 => Round(Pipe([false, false], [full, z], 1, false, true, [full], 1, Exited, [full]), 1, {0})
  }

  function LostEvent(junk: nat -> int, k: nat): Event
    requires k < 8
  {
    match k
    case 0 => Open
    case 1 => CopyFails(junk)
    case 2 => HandOver
    case 3 => Advance(Finish)
    case 4 => Advance(Take)
    case 5 => Advance(WriteBack)
    case 6 => Advance(Release)
    case 7 => Advance(Exit)
  }

  lemma {:induction false} LostNext(va: nat, mem: nat -> int, junk: nat -> int, z: Staged, k: nat)
    requires k < 8
    ensures var c := Chunk(va, 1, 0, 0);
            var b := z.(bytes := CopyInto(z.bytes, c, junk));
            RoundNext([c], [Pack(0, 1, 1)], mem, LostRound(b, z, k), LostEvent(junk, k), LostRound(b, z, k + 1))
  {
    hide CopyInto;
  }

  lemma {:induction false} LostPacked(c: Chunk)
    requires c.size == 1 && c.packOff == 0
    ensures WellPacked([c], [Pack(0, 1, 1)], 1)
  {
    PackStarts([], c, 1);
    assert [] + [c] == [c];
  }

  lemma {:induction false} LostSealed(before: nat -> Cell, c: Chunk, b: Staged)
    requires c.size == 1 && c.packOff == 0 && c.img == 0
    ensures ImageCell(before, [c], [Pack(0, 1, 1)], [b], 1, 0) == Sealed(b.iv, 0, b.bytes(0))
  {
    assert ScatterCell(before(0), [c], Pack(0, 1, 1), b, 1, 0) == Seal(b, 0);
  }

  lemma {:induction false} LostRuns(va: nat, mem: nat -> int, junk: nat -> int, z: Staged) returns (states: seq<Round>, events: seq<Event>)
    ensures var c := Chunk(va, 1, 0, 0);
            && |states| == 9 && |events| == 8 && RoundRun([c], [Pack(0, 1, 1)], 0, mem, states, events)
            && states[8] == LostRound(z.(bytes := CopyInto(z.bytes, c, junk)), z, 8)
  {
    var c := Chunk(va, 1, 0, 0);
    var b := z.(bytes := CopyInto(z.bytes, c, junk));
    states := seq(9, k requires 0 <= k < 9 => LostRound(b, z, k));
    events := seq(8, k requires 0 <= k < 8 => LostEvent(junk, k));
    assert states[0] == Round(PingPong.Init(z), 0, {});
    forall i | 0 <= i < 8 ensures RoundNext([c], [Pack(0, 1, 1)], mem, states[i], events[i], states[i + 1]) {
      LostNext(va, mem, junk, z, i);
      hide RoundNext, LostEvent, LostRound;
    }
    hide RoundNext, LostEvent, CopyInto;
  }

  /** The condition on copies is needed: one failing copy and the round still ends well,
      with whatever the staging buffer held sealed into the image. */
  lemma {:induction false} FailedCopySealed(mem: nat -> int, junk: nat -> int, before: nat -> Cell, va: nat)
    returns (states: seq<Round>, events: seq<Event>)
    ensures var chunks, packs := [Chunk(va, 1, 0, 0)], [Pack(0, 1, 1)];
            && WellPacked(chunks, packs, 1) && RoundRun(chunks, packs, 0, mem, states, events)
            && states[|events|].pipe.consumer.Exited? && |states[|events|].pipe.out| == 1
            && ImageCell(before, chunks, packs, states[|events|].pipe.out, 1, 0) == Sealed(0, 0, junk(va))
  {
    hide WellPacked, RoundRun, ImageCell;
    var c := Chunk(va, 1, 0, 0);
    var z := Staged((x: nat) => 0, 0, 0, 0);
    LostPacked(c);
    states, events := LostRuns(va, mem, junk, z);
    LostSealed(before, c, states[8].pipe.out[0]);
    assert states[8].pipe.out == [states[8].pipe.out[0]];
  }
}
