/** The generated dirty-range template of vLLM's reshape_and_cache_flash kernel:
    its merged-range branch against its per-element loop. */
module DirtyTemplates {
  import opened DirtySet

  const TWO_31: nat := 0x8000_0000
  const TWO_32: nat := 0x1_0000_0000
  const TWO_64: nat := 0x1_0000_0000_0000_0000

  type u32 = x: int | 0 <= x < TWO_32
  type u64 = x: int | 0 <= x < TWO_64

  /** Kernel parameters 2, 3, 5, 6, 7, 10, 11 and 12. */
  datatype Params = Params(
    keyCache: u64, valueCache: u64,
    blockStride: u64, pageStride: u64, headStride: u64,
    numHeads: u32, headSize: u32, blockSize: u32)

  function Wrap64(x: nat): u64 { x % TWO_64 }

  function Wrap32(x: int): u32 { x % TWO_32 }

  /** The 32-bit product that bounds the element loop. */
  function ElementCount(p: Params): u32 { Wrap32(Times(p.headSize, p.numHeads)) }

  function Times(a: nat, b: nat): nat { a * b }

  /** Element `i` of the token stored in `slot`, counted from the cache base. */
  function ElementOffset(p: Params, slot: u64, i: nat): nat
    requires p.headSize > 0 && p.blockSize > 0
  {
    Times(slot % p.blockSize, p.pageStride) + Times(slot / p.blockSize, p.blockStride)
    + Times(i / p.headSize, p.headStride) + i % p.headSize
  }

  function ElementAddress(p: Params, cache: u64, slot: u64, i: nat): u64
    requires p.headSize > 0 && p.blockSize > 0
  {
    Wrap64(cache + ElementOffset(p, slot, i) * 2)
  }

  function ElementRange(p: Params, cache: u64, slot: u64, i: nat): Range
    requires p.headSize > 0 && p.blockSize > 0
  {
    Range(ElementAddress(p, cache, slot, i), Wrap64(ElementAddress(p, cache, slot, i) + 2))
  }

  /** The first `k` rounds of the per-element loop for one slot. */
  function ElementOps(p: Params, slot: u64, k: nat): seq<Range>
    requires p.headSize > 0 && p.blockSize > 0
  {
    if k == 0 then []
    else ElementOps(p, slot, k - 1)
         + [ElementRange(p, p.keyCache, slot, k - 1), ElementRange(p, p.valueCache, slot, k - 1)]
  }

  /** The two merged insertions for one slot; the last index is a 32-bit word. */
  function MergedRange(p: Params, cache: u64, slot: u64): Range
    requires p.headSize > 0 && p.blockSize > 0
  {
    Range(ElementAddress(p, cache, slot, 0),
          Wrap64(ElementAddress(p, cache, slot, Wrap32(ElementCount(p) - 1)) + 2))
  }

  function MergedOps(p: Params, slot: u64): seq<Range>
    requires p.headSize > 0 && p.blockSize > 0
  {
    [MergedRange(p, p.keyCache, slot), MergedRange(p, p.valueCache, slot)]
  }

  function SlotOps(p: Params, slot: u64): seq<Range>
    requires p.headSize > 0 && p.blockSize > 0
  {
    if p.headStride == p.headSize then MergedOps(p, slot)
    else ElementOps(p, slot, ElementCount(p))
  }

  /** All insertions of one launch, in order. */
  function LaunchOps(p: Params, slots: seq<u64>): seq<Range>
    requires p.headSize > 0 && p.blockSize > 0
  {
    if slots == [] then [] else LaunchOps(p, slots[..|slots| - 1]) + SlotOps(p, slots[|slots| - 1])
  }

  /** What the launch inserts when every slot takes the per-element loop. */
  function AllElementOps(p: Params, slots: seq<u64>): seq<Range>
    requires p.headSize > 0 && p.blockSize > 0
  {
    if slots == [] then []
    else AllElementOps(p, slots[..|slots| - 1]) + ElementOps(p, slots[|slots| - 1], ElementCount(p))
  }

  /** No address or count leaves its machine word. */
  ghost predicate NoWrap(p: Params, slot: u64)
    requires p.headSize > 0 && p.blockSize > 0
  {
    && Times(p.headSize, p.numHeads) <= TWO_31
    && p.keyCache + (ElementOffset(p, slot, 0) + Times(p.headSize, p.numHeads)) * 2 < TWO_64
    && p.valueCache + (ElementOffset(p, slot, 0) + Times(p.headSize, p.numHeads)) * 2 < TWO_64
  }

  /** Shadow execution of one launch: mark what every block of the grid writes. */
  method ReshapeAndCacheFlash(dirty: DirtyAddresses, p: Params, slots: seq<u64>)
    requires p.headSize > 0 && p.blockSize > 0
    requires Canonical(dirty.ranges)
    modifies dirty
    ensures Canonical(dirty.ranges)
    ensures dirty.ranges == InsertAll(old(dirty.ranges), LaunchOps(p, slots))
  {
    ghost var was := dirty.ranges;
    for b := 0 to |slots|
      invariant Canonical(dirty.ranges)
      invariant dirty.ranges == InsertAll(was, LaunchOps(p, slots[..b]))
    {
      assert slots[..b + 1][..b] == slots[..b];
      InsertAllAppend(was, LaunchOps(p, slots[..b]), SlotOps(p, slots[b]));
      if p.headStride == p.headSize {
        MarkMerged(dirty, p, slots[b]);
      } else {
        MarkElements(dirty, p, slots[b]);
      }
    }
    assert slots[..|slots|] == slots;
  }

  method MarkMerged(dirty: DirtyAddresses, p: Params, slot: u64)
    requires p.headSize > 0 && p.blockSize > 0
    requires Canonical(dirty.ranges)
    modifies dirty
    ensures Canonical(dirty.ranges)
    ensures dirty.ranges == InsertAll(old(dirty.ranges), MergedOps(p, slot))
  {
    hide ElementOffset, Insert, Canonical;
    var last := Wrap32(ElementCount(p) - 1);
    ghost var was := dirty.ranges;
    InsertTwo(was, [], MergedRange(p, p.keyCache, slot), MergedRange(p, p.valueCache, slot));
    assert [] + MergedOps(p, slot) == MergedOps(p, slot);
    dirty.AddAndMerge(ElementAddress(p, p.keyCache, slot, 0),
                      Wrap64(ElementAddress(p, p.keyCache, slot, last) + 2));
    dirty.AddAndMerge(ElementAddress(p, p.valueCache, slot, 0),
                      Wrap64(ElementAddress(p, p.valueCache, slot, last) + 2));
  }

  method MarkElements(dirty: DirtyAddresses, p: Params, slot: u64)
    requires p.headSize > 0 && p.blockSize > 0
    requires Canonical(dirty.ranges)
    modifies dirty
    ensures Canonical(dirty.ranges)
    ensures dirty.ranges == InsertAll(old(dirty.ranges), ElementOps(p, slot, ElementCount(p)))
  {
    hide ElementOffset, Insert, Canonical;
    ghost var was := dirty.ranges;
    for i := 0 to ElementCount(p)
      invariant Canonical(dirty.ranges)
      invariant dirty.ranges == InsertAll(was, ElementOps(p, slot, i))
    {
      var k: nat := ElementAddress(p, p.keyCache, slot, i);
      dirty.AddAndMerge(k, Wrap64(k + 2));
      var v: nat := ElementAddress(p, p.valueCache, slot, i);
      dirty.AddAndMerge(v, Wrap64(v + 2));
      InsertTwo(was, ElementOps(p, slot, i), Range(k, Wrap64(k + 2)), Range(v, Wrap64(v + 2)));
    }
  }

  lemma {:induction false} InsertTwo(rs: seq<Range>, ops: seq<Range>, x: Range, y: Range)
    ensures InsertAll(rs, ops + [x, y])
         == Insert(Insert(InsertAll(rs, ops), x.start, x.end), y.start, y.end)
  {
    hide Insert;
    assert (ops + [x, y])[..|ops| + 1] == ops + [x];
    assert (ops + [x])[..|ops|] == ops;
  }

  lemma {:induction false} UnitStrideOffset(p: Params, slot: u64, i: nat)
    requires p.headSize > 0 && p.blockSize > 0 && p.headStride == p.headSize
    ensures ElementOffset(p, slot, i) == ElementOffset(p, slot, 0) + i
  {
    assert i == (i / p.headSize) * p.headSize + i % p.headSize;
    assert 0 / p.headSize == 0 && 0 % p.headSize == 0;
  }

  ghost predicate InSpan(p: Params, slot: u64, k: nat, a: int)
    requires p.headSize > 0 && p.blockSize > 0
  {
    var off := ElementOffset(p, slot, 0) * 2;
    || p.keyCache + off <= a < p.keyCache + off + 2 * k
    || p.valueCache + off <= a < p.valueCache + off + 2 * k
  }

  lemma {:induction false} SpanAddress(p: Params, cache: u64, slot: u64, i: nat)
    requires p.headSize > 0 && p.blockSize > 0 && p.headStride == p.headSize
    requires cache + (ElementOffset(p, slot, 0) + i) * 2 + 2 < TWO_64
    ensures ElementAddress(p, cache, slot, i) == cache + ElementOffset(p, slot, 0) * 2 + i * 2
    ensures Wrap64(ElementAddress(p, cache, slot, i) + 2) == cache + ElementOffset(p, slot, 0) * 2 + i * 2 + 2
  {
    UnitStrideOffset(p, slot, i);
    hide ElementOffset;
  }

  lemma {:induction false} ElementOpsCover(p: Params, slot: u64, k: nat, a: int)
    requires p.headSize > 0 && p.blockSize > 0 && p.headStride == p.headSize
    requires NoWrap(p, slot) && k <= Times(p.headSize, p.numHeads)
    ensures Covers(ElementOps(p, slot, k), a) <==> InSpan(p, slot, k, a)
  {
    hide ElementOffset, Times, ElementAddress, Wrap64;
    if k == 0 {
    } else {
      ElementOpsCover(p, slot, k - 1, a);
      SpanAddress(p, p.keyCache, slot, k - 1);
      SpanAddress(p, p.valueCache, slot, k - 1);
      var kr := ElementRange(p, p.keyCache, slot, k - 1);
      var vr := ElementRange(p, p.valueCache, slot, k - 1);
      CoversConcat(ElementOps(p, slot, k - 1), [kr, vr], a);
      CoversTwo(kr, vr, a);
    }
  }

  lemma {:induction false} CoversTwo(x: Range, y: Range, a: int)
    ensures Covers([x, y], a) <==> x.start <= a < x.end || y.start <= a < y.end
  {
    assert [x, y][0] == x && [x, y][1] == y;
  }

  lemma {:induction false} MergedOpsCover(p: Params, slot: u64, a: int)
    requires p.headSize > 0 && p.blockSize > 0 && p.headStride == p.headSize
    requires NoWrap(p, slot) && Times(p.headSize, p.numHeads) >= 1
    ensures Covers(MergedOps(p, slot), a) <==> InSpan(p, slot, Times(p.headSize, p.numHeads), a)
  {
    hide ElementOffset, Times, ElementAddress, Wrap64, Covers;
    var n := Times(p.headSize, p.numHeads);
    assert Wrap32(ElementCount(p) - 1) == n - 1;
    SpanAddress(p, p.keyCache, slot, 0);
    SpanAddress(p, p.valueCache, slot, 0);
    SpanAddress(p, p.keyCache, slot, n - 1);
    SpanAddress(p, p.valueCache, slot, n - 1);
    CoversTwo(MergedRange(p, p.keyCache, slot), MergedRange(p, p.valueCache, slot), a);
  }

  lemma {:induction false} LaunchOpsCover(p: Params, slots: seq<u64>, a: int)
    requires p.headSize > 0 && p.blockSize > 0 && ElementCount(p) >= 1
    requires forall s :: s in slots ==> NoWrap(p, s)
    ensures Covers(LaunchOps(p, slots), a) <==> Covers(AllElementOps(p, slots), a)
  {
    hide ElementOffset, Times, Covers, ElementOps, MergedOps, InSpan;
    if slots == [] {
      assert LaunchOps(p, slots) == AllElementOps(p, slots);
    } else {
      var init, last := slots[..|slots| - 1], slots[|slots| - 1];
      LaunchOpsCover(p, init, a);
      var n := ElementCount(p);
      assert NoWrap(p, last);
      assert n == Times(p.headSize, p.numHeads);
      if p.headStride == p.headSize {
        ElementOpsCover(p, last, n, a);
        MergedOpsCover(p, last, a);
      }
      CoversConcat(LaunchOps(p, init), SlotOps(p, last), a);
      CoversConcat(AllElementOps(p, init), ElementOps(p, last, n), a);
    }
  }

  /** The launch leaves the set its per-element loop would leave: the merged
      branch is an optimisation only. */
  lemma {:induction false} MergedBranchIsElementLoop(rs: seq<Range>, p: Params, slots: seq<u64>)
    requires Canonical(rs)
    requires p.headSize > 0 && p.blockSize > 0 && ElementCount(p) >= 1
    requires forall s :: s in slots ==> NoWrap(p, s)
    ensures InsertAll(rs, LaunchOps(p, slots)) == InsertAll(rs, AllElementOps(p, slots))
  {
    forall a ensures Covers(LaunchOps(p, slots), a) <==> Covers(AllElementOps(p, slots), a) {
      LaunchOpsCover(p, slots, a);
    }
    OrderIndependent(rs, LaunchOps(p, slots), AllElementOps(p, slots));
  }

  /** With no elements the loop marks nothing, but the merged branch computes the
      last index as 2^32 - 1 and marks 8 GB; so on an empty set, away from the top
      of the address space, the two agree exactly when there is an element. */
  lemma {:induction false} EmptyHeadsDiverge(p: Params, slot: u64)
    requires p.headSize > 0 && p.blockSize > 0 && p.headStride == p.headSize
    requires NoWrap(p, slot)
    requires p.keyCache + (ElementOffset(p, slot, 0) + TWO_32) * 2 < TWO_64
    ensures InsertAll([], LaunchOps(p, [slot])) == InsertAll([], AllElementOps(p, [slot]))
       <==> ElementCount(p) >= 1
  {
    hide ElementOffset, ElementAddress, Wrap64, Insert;
    assert [slot][..0] == [];
    if ElementCount(p) >= 1 {
      MergedBranchIsElementLoop([], p, [slot]);
    } else {
      SpanAddress(p, p.keyCache, slot, 0);
      SpanAddress(p, p.keyCache, slot, TWO_32 - 1);
      var r := MergedRange(p, p.keyCache, slot);
      assert r.start < r.end;
      CoversTwo(r, MergedRange(p, p.valueCache, slot), r.start);
      assert LaunchOps(p, [slot]) == MergedOps(p, slot);
      InsertAllCorrect([], LaunchOps(p, [slot]));
      assert Covers(InsertAll([], LaunchOps(p, [slot])), r.start);
    }
  }
}
