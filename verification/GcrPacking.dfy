/** GCR's chunk builder: dirty ranges are clipped to their allocation, cut into
    staging-sized chunks and packed next-fit into staging slots. */
module GcrPacking {
  import opened Arith
  import opened Chunking
  import opened DirtySet

  /** An allocation-table row; `slot` is its offset in the image, if it has one. */
  datatype Alloc = Alloc(va: nat, size: nat, slot: Slot, alive: bool, pendingDrop: bool)

  datatype Chunk = Chunk(va: nat, size: nat, img: nat, packOff: nat)

  /** Chunks first .. first + count share one staging buffer. */
  datatype Pack = Pack(first: nat, count: nat, total: nat)

  /** The first live allocation holding `addr`, or |allocs|. */
  function FindAlloc(allocs: seq<Alloc>, addr: nat, from: nat := 0): (i: nat)
    requires from <= |allocs|
    ensures from <= i <= |allocs|
    ensures i < |allocs| ==> allocs[i].alive && allocs[i].va <= addr < allocs[i].va + allocs[i].size
    ensures forall k :: from <= k < i && allocs[k].alive ==>
              !(allocs[k].va <= addr < allocs[k].va + allocs[k].size)
    decreases |allocs| - from
  {
    if from == |allocs| then from
    else if allocs[from].alive && allocs[from].va <= addr < allocs[from].va + allocs[from].size then from
    else FindAlloc(allocs, addr, from + 1)
  }

  /** What is left of a dirty range: nothing for an unknown address or an
      allocation without image slot, else the part inside that allocation. */
  function Clip(allocs: seq<Alloc>, r: Range): (p: Piece)
    ensures p.size > 0 ==>
              var i := FindAlloc(allocs, r.start);
              && i < |allocs| && allocs[i].slot.At?
              && p.va == r.start && p.va + p.size == Min(r.end, allocs[i].va + allocs[i].size)
              && p.img == allocs[i].slot.offset + (r.start - allocs[i].va)
  {
    var i := FindAlloc(allocs, r.start);
    if r.start >= r.end || i == |allocs| || allocs[i].slot.NoSlot? then Piece(0, 0, 0)
    else
      var off := r.start - allocs[i].va;
      var sz := r.end - r.start;
      Piece(r.start, if off + sz > allocs[i].size then allocs[i].size - off else sz, allocs[i].slot.offset + off)
  }

  predicate Skipped(allocs: seq<Alloc>, r: Range) {
    var i := FindAlloc(allocs, r.start);
    r.start < r.end && (i == |allocs| || allocs[i].slot.NoSlot?)
  }

  function CountSkipped(allocs: seq<Alloc>, rs: seq<Range>): nat {
    if rs == [] then 0
    else CountSkipped(allocs, rs[..|rs| - 1]) + if Skipped(allocs, rs[|rs| - 1]) then 1 else 0
  }

  function CutAll(allocs: seq<Alloc>, rs: seq<Range>, staging: nat): seq<Piece>
    requires staging > 0
  {
    if rs == [] then []
    else
      var p := Clip(allocs, rs[|rs| - 1]);
      CutAll(allocs, rs[..|rs| - 1], staging) + CutUpTo(p, p.size, staging)
  }

  function Pieces(chunks: seq<Chunk>): (ps: seq<Piece>)
    ensures |ps| == |chunks|
    ensures forall k :: 0 <= k < |ps| ==> ps[k] == Piece(chunks[k].va, chunks[k].size, chunks[k].img)
  {
    if chunks == [] then []
    else
      var c := chunks[|chunks| - 1];
      Pieces(chunks[..|chunks| - 1]) + [Piece(c.va, c.size, c.img)]
  }

  function Bytes(chunks: seq<Chunk>): nat {
    if chunks == [] then 0 else Bytes(chunks[..|chunks| - 1]) + chunks[|chunks| - 1].size
  }

  ghost predicate PackOk(chunks: seq<Chunk>, s: Pack, staging: nat) {
    && s.count > 0 && s.first + s.count <= |chunks|
    && s.total == Bytes(chunks[s.first..s.first + s.count]) <= staging
    && forall j :: s.first <= j < s.first + s.count ==> chunks[j].packOff == Bytes(chunks[s.first..j])
  }

  /** `b` starts where `a` stops, with a chunk that no longer fitted in `a`. */
  ghost predicate Follows(chunks: seq<Chunk>, a: Pack, b: Pack, staging: nat) {
    && b.first == a.first + a.count < |chunks|
    && a.total + chunks[b.first].size > staging
  }

  ghost predicate WellPacked(chunks: seq<Chunk>, packs: seq<Pack>, staging: nat) {
    && (forall k :: 0 <= k < |packs| ==> PackOk(chunks, packs[k], staging))
    && (forall k :: 0 <= k < |packs| - 1 ==> Follows(chunks, packs[k], packs[k + 1], staging))
    && (packs == [] ==> chunks == [])
    && (packs != [] ==> packs[0].first == 0 && packs[|packs| - 1].first + packs[|packs| - 1].count == |chunks|)
  }

  /** Packing state inside the loop: the last pack is the one being filled. */
  ghost predicate Filling(chunks: seq<Chunk>, packs: seq<Pack>, staging: nat) {
    if packs == [Pack(0, 0, 0)] then chunks == [] else packs != [] && WellPacked(chunks, packs, staging)
  }

  lemma {:induction false} BytesAppend(chunks: seq<Chunk>, c: Chunk)
    ensures Bytes(chunks + [c]) == Bytes(chunks) + c.size
  {
    assert (chunks + [c])[..|chunks|] == chunks;
  }

  lemma {:induction false} PackOkExtends(chunks: seq<Chunk>, c: Chunk, s: Pack, staging: nat)
    requires PackOk(chunks, s, staging)
    ensures PackOk(chunks + [c], s, staging)
  {
    assert (chunks + [c])[s.first..s.first + s.count] == chunks[s.first..s.first + s.count];
    forall j | s.first <= j < s.first + s.count
      ensures (chunks + [c])[j].packOff == Bytes((chunks + [c])[s.first..j])
    {
      assert (chunks + [c])[s.first..j] == chunks[s.first..j];
    }
  }

  lemma {:induction false} PackGrows(chunks: seq<Chunk>, c: Chunk, s: Pack, staging: nat)
    requires PackOk(chunks, s, staging) && s.first + s.count == |chunks|
    requires s.total + c.size <= staging && c.packOff == s.total
    ensures PackOk(chunks + [c], Pack(s.first, s.count + 1, s.total + c.size), staging)
  {
    var all := chunks + [c];
    assert all[s.first..|all|] == chunks[s.first..|chunks|] + [c];
    BytesAppend(chunks[s.first..|chunks|], c);
    forall j | s.first <= j < |all| ensures all[j].packOff == Bytes(all[s.first..j]) {
      assert all[s.first..j] == chunks[s.first..j];
    }
  }

  lemma {:induction false} PackStarts(chunks: seq<Chunk>, c: Chunk, staging: nat)
    requires c.size <= staging && c.packOff == 0
    ensures PackOk(chunks + [c], Pack(|chunks|, 1, c.size), staging)
  {
    var all := chunks + [c];
    assert all[|chunks|..|all|] == [] + [c];
    BytesAppend([], c);
    assert all[|chunks|..|chunks|] == [];
  }

  lemma {:induction false} OpenNewPack(chunks: seq<Chunk>, packs: seq<Pack>, c: Chunk, staging: nat)
    requires packs != [] && WellPacked(chunks, packs, staging)
    requires c.size <= staging && c.packOff == 0 && packs[|packs| - 1].total + c.size > staging
    ensures WellPacked(chunks + [c], packs + [Pack(|chunks|, 1, c.size)], staging)
  {
    var all, packs' := chunks + [c], packs + [Pack(|chunks|, 1, c.size)];
    PackStarts(chunks, c, staging);
    forall k | 0 <= k < |packs'| - 1 ensures Follows(all, packs'[k], packs'[k + 1], staging) {
      hide PackOk, Bytes;
      assert k < |packs| - 1 ==> Follows(chunks, packs[k], packs[k + 1], staging);
    }
    forall k | 0 <= k < |packs'| ensures PackOk(all, packs'[k], staging) {
      hide PackOk, Bytes, Follows;
      if k < |packs| {
        PackOkExtends(chunks, c, packs[k], staging);
      }
    }
    hide PackOk, Bytes, Follows;
  }

  lemma {:induction false} GrowLastPack(chunks: seq<Chunk>, packs: seq<Pack>, c: Chunk, staging: nat)
    requires packs != [] && WellPacked(chunks, packs, staging)
    requires var s := packs[|packs| - 1]; c.packOff == s.total && s.total + c.size <= staging
    ensures var s := packs[|packs| - 1];
            WellPacked(chunks + [c], packs[..|packs| - 1] + [Pack(s.first, s.count + 1, s.total + c.size)], staging)
  {
    hide PackOk, Bytes;
    var s := packs[|packs| - 1];
    forall k | 0 <= k < |packs| - 1 ensures PackOk(chunks + [c], packs[k], staging) {
      PackOkExtends(chunks, c, packs[k], staging);
    }
    PackGrows(chunks, c, s, staging);
    var packs' := packs[..|packs| - 1] + [Pack(s.first, s.count + 1, s.total + c.size)];
    forall k | 0 <= k < |packs| - 1 ensures Follows(chunks + [c], packs'[k], packs'[k + 1], staging) {
      assert Follows(chunks, packs[k], packs[k + 1], staging);
    }
  }

  /** One placement step: the chunk joins the open pack or opens a new one. */
  lemma {:induction false} PlacementKeepsPacking(chunks: seq<Chunk>, packs: seq<Pack>, c: Chunk, staging: nat, packs': seq<Pack>)
    requires Filling(chunks, packs, staging) && c.size <= staging
    requires var s := packs[|packs| - 1];
             if s.count > 0 && s.total + c.size > staging
             then c.packOff == 0 && packs' == packs + [Pack(|chunks|, 1, c.size)]
             else c.packOff == s.total && packs' == packs[..|packs| - 1] + [Pack(s.first, s.count + 1, s.total + c.size)]
    ensures WellPacked(chunks + [c], packs', staging)
  {
    var s := packs[|packs| - 1];
    if packs == [Pack(0, 0, 0)] {
      PackStarts(chunks, c, staging);
    } else if s.count > 0 && s.total + c.size > staging {
      OpenNewPack(chunks, packs, c, staging);
    } else {
      assert PackOk(chunks, s, staging);
      GrowLastPack(chunks, packs, c, staging);
    }
  }

  /** Clip, cut and pack the dirty ranges under the allocation lock. */
  method BuildChunks(allocs: seq<Alloc>, ranges: seq<Range>, staging: nat)
    returns (chunks: seq<Chunk>, packs: seq<Pack>, skipped: nat)
    requires staging > 0
    ensures Pieces(chunks) == CutAll(allocs, ranges, staging)
    ensures WellPacked(chunks, packs, staging)
    ensures skipped == CountSkipped(allocs, ranges)
  {
    chunks, packs, skipped := [], [Pack(0, 0, 0)], 0;
    for i := 0 to |ranges|
      invariant Filling(chunks, packs, staging)
      invariant Pieces(chunks) == CutAll(allocs, ranges[..i], staging)
      invariant skipped == CountSkipped(allocs, ranges[..i])
    {
      assert ranges[..i + 1][..i] == ranges[..i];
      var idx := FindAlloc(allocs, ranges[i].start);
      var piece := Clip(allocs, ranges[i]);
      if ranges[i].start < ranges[i].end && (idx == |allocs| || allocs[idx].slot.NoSlot?) {
        skipped := skipped + 1;
      }
      chunks, packs := PackPiece(chunks, packs, piece, staging);
    }
    assert ranges[..|ranges|] == ranges;
    if packs[|packs| - 1].count == 0 {
      packs := packs[..|packs| - 1];
    }
  }

  /** The inner loop: cut one clipped piece and place each chunk. */
  method PackPiece(chunks0: seq<Chunk>, packs0: seq<Pack>, p: Piece, staging: nat)
    returns (chunks: seq<Chunk>, packs: seq<Pack>)
    requires staging > 0 && Filling(chunks0, packs0, staging)
    ensures Filling(chunks, packs, staging)
    ensures Pieces(chunks) == Pieces(chunks0) + CutUpTo(p, p.size, staging)
  {
    hide Filling, CutUpTo;
    chunks, packs := chunks0, packs0;
    var copied := 0;
    CutNothing(p, staging);
    while copied < p.size
      invariant copied <= p.size
      invariant copied < p.size ==> copied % staging == 0
      invariant Filling(chunks, packs, staging)
      invariant Pieces(chunks) == Pieces(chunks0) + CutUpTo(p, copied, staging)
    {
      var size := p.size - copied;
      if size > staging { size := staging; }
      chunks, packs := PlaceChunk(chunks, packs, p.va + copied, size, p.img + copied, staging);
      CutStep(p, copied, size, staging);
      copied := copied + size;
    }
  }

  /** Put one chunk behind the others of the open pack, or close that pack. */
  method PlaceChunk(chunks0: seq<Chunk>, packs0: seq<Pack>, va: nat, size: nat, img: nat, staging: nat)
    returns (chunks: seq<Chunk>, packs: seq<Pack>)
    requires size <= staging && Filling(chunks0, packs0, staging)
    ensures Filling(chunks, packs, staging)
    ensures Pieces(chunks) == Pieces(chunks0) + [Piece(va, size, img)]
  {
    packs := packs0;
    if packs[|packs| - 1].count > 0 && packs[|packs| - 1].total + size > staging {
      packs := packs + [Pack(|chunks0|, 0, 0)];
    }
    var open := packs[|packs| - 1];
    var c := Chunk(va, size, img, open.total);
    packs := packs[..|packs| - 1] + [Pack(open.first, open.count + 1, open.total + size)];
    chunks := chunks0 + [c];
    PlacementKeepsPacking(chunks0, packs0, c, staging, packs);
    assert chunks[..|chunks0|] == chunks0;
  }

  /** The chunk list carries exactly the clipped bytes of each range. */
  lemma {:induction false} CutAllCarries(allocs: seq<Alloc>, rs: seq<Range>, staging: nat, a: int, x: int)
    requires staging > 0
    ensures Carries(CutAll(allocs, rs, staging), a, x)
       <==> exists i :: 0 <= i < |rs| && var p := Clip(allocs, rs[i]);
              p.va <= a < p.va + p.size && x == p.img + (a - p.va)
  {
    if rs == [] {
    } else {
      var init, p := rs[..|rs| - 1], Clip(allocs, rs[|rs| - 1]);
      CutAllCarries(allocs, init, staging, a, x);
      CutTiles(p, p.size, staging);
      CarriesConcat(CutAll(allocs, init, staging), CutUpTo(p, p.size, staging), a, x);
      assert forall i :: 0 <= i < |init| ==> rs[i] == init[i];
      assert Carries(CutUpTo(p, p.size, staging), a, x)
        <==> p.va <= a < p.va + p.size && x == p.img + (a - p.va);
    }
  }

  lemma {:induction false} BytesSplit(chunks: seq<Chunk>, m: nat)
    requires m <= |chunks|
    ensures Bytes(chunks) == Bytes(chunks[..m]) + Bytes(chunks[m..])
    decreases |chunks|
  {
    if m == |chunks| {
      assert chunks[..m] == chunks && chunks[m..] == [];
    } else {
      BytesSplit(chunks[..|chunks| - 1], m);
      assert chunks[..|chunks| - 1][..m] == chunks[..m];
      assert chunks[..|chunks| - 1][m..] == chunks[m..][..|chunks| - 1 - m];
    }
  }

  /** Bytes packed before chunk `j` of a pack reach up to chunk `j`'s offset, and
      chunk `j` ends where the next one starts. */
  lemma {:induction false} PackPrefix(chunks: seq<Chunk>, f: nat, i: nat, e: nat)
    requires f <= i < e <= |chunks|
    ensures Bytes(chunks[f..i]) + chunks[i].size == Bytes(chunks[f..i + 1]) <= Bytes(chunks[f..e])
  {
    assert chunks[f..i + 1] == chunks[f..i] + [chunks[i]];
    BytesAppend(chunks[f..i], chunks[i]);
    BytesSplit(chunks[f..e], i + 1 - f);
    assert chunks[f..e][..i + 1 - f] == chunks[f..i + 1];
  }

  /** Chunks of one pack lie side by side in the staging buffer, without overlap. */
  lemma {:induction false} PackedDisjoint(chunks: seq<Chunk>, s: Pack, staging: nat, i: nat, j: nat)
    requires PackOk(chunks, s, staging) && s.first <= i < j < s.first + s.count
    ensures chunks[i].packOff + chunks[i].size <= chunks[j].packOff
    ensures chunks[j].packOff + chunks[j].size <= s.total <= staging
  {
    PackPrefix(chunks, s.first, i, j);
    PackPrefix(chunks, s.first, j, s.first + s.count);
  }

  function PackEnd(packs: seq<Pack>, m: nat): nat
    requires m <= |packs|
  {
    if m == 0 then 0 else packs[m - 1].first + packs[m - 1].count
  }

  /** Pack `k` starts where the packs before it end, and holds its bytes. */
  lemma {:induction false} PackSpan(chunks: seq<Chunk>, packs: seq<Pack>, staging: nat, k: nat)
    requires WellPacked(chunks, packs, staging) && k < |packs|
    ensures PackEnd(packs, k) == packs[k].first < PackEnd(packs, k + 1) <= |chunks|
    ensures Bytes(chunks[..PackEnd(packs, k + 1)]) == Bytes(chunks[..PackEnd(packs, k)]) + packs[k].total
    ensures chunks[packs[k].first].size <= packs[k].total
  {
    assert PackOk(chunks, packs[k], staging);
    assert k > 0 ==> Follows(chunks, packs[k - 1], packs[k], staging);
    var a, b := PackEnd(packs, k), PackEnd(packs, k + 1);
    PackPrefix(chunks, a, a, b);
    BytesSplit(chunks[..b], a);
    assert chunks[..b][..a] == chunks[..a] && chunks[..b][a..] == chunks[a..b];
  }

  /** Two neighbouring packs together exceed the staging size. */
  lemma {:induction false} NeighboursExceed(chunks: seq<Chunk>, packs: seq<Pack>, staging: nat, k: nat)
    requires WellPacked(chunks, packs, staging) && k + 1 < |packs|
    ensures packs[k].total + packs[k + 1].total > staging
  {
    assert Follows(chunks, packs[k], packs[k + 1], staging);
    PackSpan(chunks, packs, staging, k + 1);
  }

  /** One staging size for every two packs. */
  function HalfTimes(m: nat, staging: nat): nat {
    if m < 2 then 0 else staging + HalfTimes(m - 2, staging)
  }

  lemma {:induction false} PairsFill(chunks: seq<Chunk>, packs: seq<Pack>, staging: nat, m: nat)
    requires WellPacked(chunks, packs, staging) && m <= |packs|
    ensures PackEnd(packs, m) <= |chunks|
    ensures HalfTimes(m, staging) <= Bytes(chunks[..PackEnd(packs, m)])
    decreases m
  {
    if m > 0 {
      PackSpan(chunks, packs, staging, m - 1);
    }
    if m >= 2 {
      PairsFill(chunks, packs, staging, m - 2);
      PackSpan(chunks, packs, staging, m - 2);
      NeighboursExceed(chunks, packs, staging, m - 2);
    }
  }

  lemma {:induction false} HalfTimesBound(m: nat, t: nat, d: nat)
    requires d > 0 && HalfTimes(m, d) <= t
    ensures m <= 2 * (t / d) + 1
  {
    if m >= 2 {
      HalfTimesBound(m - 2, t - d, d);
      var q := (t - d) / d;
      assert t - d == d * q + (t - d) % d;
      assert d * (q + 1) == d * q + d;
      DivUnique(t, q + 1, (t - d) % d, d);
    }
  }

  /** Next-fit needs at most one pack more than twice the bytes over the staging size. */
  lemma {:induction false} PackCountBound(chunks: seq<Chunk>, packs: seq<Pack>, staging: nat)
    requires staging > 0 && WellPacked(chunks, packs, staging)
    ensures |packs| <= 2 * (Bytes(chunks) / staging) + 1
  {
    PairsFill(chunks, packs, staging, |packs|);
    assert chunks[..PackEnd(packs, |packs|)] == chunks;
    HalfTimesBound(|packs|, Bytes(chunks), staging);
  }

  lemma {:induction false} ChunksBoundPacks(chunks: seq<Chunk>, packs: seq<Pack>, staging: nat, m: nat)
    requires WellPacked(chunks, packs, staging) && m <= |packs|
    ensures m <= PackEnd(packs, m)
  {
    if m > 0 {
      ChunksBoundPacks(chunks, packs, staging, m - 1);
      PackSpan(chunks, packs, staging, m - 1);
    }
  }

  lemma {:induction false} UncutCount(allocs: seq<Alloc>, rs: seq<Range>, staging: nat)
    requires staging > 0
    requires forall i :: 0 <= i < |rs| ==> rs[i].end <= rs[i].start + staging
    ensures |CutAll(allocs, rs, staging)| <= |rs|
  {
    if rs == [] {
    } else {
      UncutCount(allocs, rs[..|rs| - 1], staging);
      var p := Clip(allocs, rs[|rs| - 1]);
      if p.size > 0 {
        ModShift(0, p.size - 1, staging);
        assert CutUpTo(p, 0, staging) == [];
      }
    }
  }

  /** The builder's allowance of one pack per range plus one holds when no dirty
      range exceeds the staging size. */
  lemma {:induction false} SlotCapacitySuffices(allocs: seq<Alloc>, rs: seq<Range>, chunks: seq<Chunk>, packs: seq<Pack>, staging: nat)
    requires staging > 0 && WellPacked(chunks, packs, staging)
    requires Pieces(chunks) == CutAll(allocs, rs, staging)
    requires forall i :: 0 <= i < |rs| ==> rs[i].end <= rs[i].start + staging
    ensures |packs| <= |rs| + 1
  {
    UncutCount(allocs, rs, staging);
    ChunksBoundPacks(chunks, packs, staging, |packs|);
  }

  /** Bytes left of the ranges after clipping. */
  function ClippedTotal(allocs: seq<Alloc>, rs: seq<Range>): nat {
    if rs == [] then 0 else ClippedTotal(allocs, rs[..|rs| - 1]) + Clip(allocs, rs[|rs| - 1]).size
  }

  lemma {:induction false} SumSizesConcat(a: seq<Piece>, b: seq<Piece>)
    ensures SumSizes(a + b) == SumSizes(a) + SumSizes(b)
  {
    if b == [] {
      assert a + b == a;
    } else {
      SumSizesConcat(a, b[..|b| - 1]);
      assert (a + b)[..|a + b| - 1] == a + b[..|b| - 1];
    }
  }

  lemma {:induction false} CutAllTotal(allocs: seq<Alloc>, rs: seq<Range>, staging: nat)
    requires staging > 0
    ensures SumSizes(CutAll(allocs, rs, staging)) == ClippedTotal(allocs, rs)
  {
    if rs != [] {
      var p := Clip(allocs, rs[|rs| - 1]);
      CutAllTotal(allocs, rs[..|rs| - 1], staging);
      CutTiles(p, p.size, staging);
      SumSizesConcat(CutAll(allocs, rs[..|rs| - 1], staging), CutUpTo(p, p.size, staging));
    }
  }

  /** For any ranges the allowance holds when twice the clipped bytes fill no more
      staging buffers than there are ranges; GcrCapacity.CapacityIsTight shows that no more
      bytes can be allowed. */
  lemma {:induction false} SlotCapacityByTotal(allocs: seq<Alloc>, rs: seq<Range>, chunks: seq<Chunk>, packs: seq<Pack>, staging: nat)
    requires staging > 0 && WellPacked(chunks, packs, staging)
    requires Pieces(chunks) == CutAll(allocs, rs, staging)
    requires 2 * (ClippedTotal(allocs, rs) / staging) <= |rs| || |CutAll(allocs, rs, staging)| <= |rs| + 1
    ensures |packs| <= |rs| + 1
  {
    CutAllTotal(allocs, rs, staging);
    PiecesBytes(chunks);
    PackCountBound(chunks, packs, staging);
    ChunksBoundPacks(chunks, packs, staging, |packs|);
  }

  /** For a single clipped range the allowance of two packs is met exactly when the
      range is at most two staging buffers long. */
  lemma {:induction false} SingleRangeCapacity(chunks: seq<Chunk>, packs: seq<Pack>, p: Piece, staging: nat)
    requires staging > 0 && WellPacked(chunks, packs, staging)
    requires Pieces(chunks) == CutUpTo(p, p.size, staging)
    ensures |packs| <= 2 <==> p.size <= 2 * staging
  {
    CutTiles(p, p.size, staging);
    PiecesBytes(chunks);
    if |packs| <= 2 {
      TotalOfFew(chunks, packs, staging);
    } else {
      NeighboursExceed(chunks, packs, staging, 0);
      if p.size <= 2 * staging {
        TwoChunks(p, staging);
        ChunksBoundPacks(chunks, packs, staging, |packs|);
        assert false;
      }
    }
  }

  lemma {:induction false} PiecesBytes(chunks: seq<Chunk>)
    ensures SumSizes(Pieces(chunks)) == Bytes(chunks)
  {
    if chunks == [] {
    } else {
      PiecesBytes(chunks[..|chunks| - 1]);
      assert Pieces(chunks)[..|chunks| - 1] == Pieces(chunks[..|chunks| - 1]);
    }
  }

  lemma {:induction false} TotalOfFew(chunks: seq<Chunk>, packs: seq<Pack>, staging: nat)
    requires WellPacked(chunks, packs, staging) && |packs| <= 2
    ensures Bytes(chunks) <= 2 * staging
  {
    if |packs| >= 1 {
      PackSpan(chunks, packs, staging, 0);
      assert PackOk(chunks, packs[0], staging);
    }
    if |packs| == 2 {
      PackSpan(chunks, packs, staging, 1);
      assert PackOk(chunks, packs[1], staging);
    }
    assert chunks[..PackEnd(packs, |packs|)] == chunks;
    assert chunks[..0] == [];
  }

  lemma {:induction false} TwoChunks(p: Piece, staging: nat)
    requires staging > 0 && p.size <= 2 * staging
    ensures |CutUpTo(p, p.size, staging)| <= 2
  {
    if p.size > staging {
      ModShift(0, 0, staging);
      ModShift(staging, p.size - 1 - staging, staging);
      ModShift(0, staging - 1, staging);
      assert CutUpTo(p, 0, staging) == [];
    } else if p.size > 0 {
      ModShift(0, p.size - 1, staging);
      assert CutUpTo(p, 0, staging) == [];
    }
  }
}
