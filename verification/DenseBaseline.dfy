/** The coalesced baseline: one capture of the span from the first to the last
    allocation is sliced back into one range per allocation. Other allocations may have
    pages in between. */
module DenseBaseline {
  import opened Bytes
  import opened ImageFormat
  import opened PageMap
  import opened RestoreJobs
  import opened SparseDelta
  import opened ParallelDelta

  /** An allocation, by its pages in the span. */
  datatype AllocSpan = AllocSpan(firstPage: nat, pages: nat) {
    function End(): nat { firstPage + pages }
  }

  /** Where an allocation's GPU bytes and metadata entries are. */
  datatype Slice = Slice(gpuOff: nat, metaStart: nat, metaEnd: nat)

  datatype SliceError = NotOnGpu | MetaSpans | MetaShort

  datatype Outcome<T> = Sliced(value: T) | Rejected(error: SliceError)

  /** Allocations in address order, none overlapping the next, all inside the span. */
  ghost predicate InOrder(s: Span, allocs: seq<AllocSpan>) {
    && (forall i :: 0 <= i < |allocs| ==> allocs[i].End() <= |s.resmap|)
    && forall i :: 0 < i < |allocs| ==> allocs[i - 1].End() <= allocs[i].firstPage
  }

  ghost predicate AllOnGpu(resmap: seq<byte>, first: nat, end: nat) {
    end <= |resmap| && forall p :: first <= p < end ==> resmap[p] == ON_GPU
  }

  /** What the walk demands of an allocation. */
  ghost predicate Sliceable(s: Span, a: AllocSpan) {
    && a.End() <= |s.resmap| && AllOnGpu(s.resmap, a.firstPage, a.End())
    && Boundary(s.transfers, GpuBytes(s.resmap, a.firstPage)) && Boundary(s.transfers, GpuBytes(s.resmap, a.End()))
  }

  ghost predicate SliceOk(s: Span, a: AllocSpan, x: Slice) {
    && a.End() <= |s.resmap| && x.gpuOff == GpuBytes(s.resmap, a.firstPage)
    && x.metaStart <= x.metaEnd <= |s.transfers|
    && Acc(s.transfers, x.metaStart) == x.gpuOff
    && Acc(s.transfers, x.metaEnd) == x.gpuOff + PAGE_SIZE * a.pages
  }

  lemma {:induction false} GpuRun(resmap: seq<byte>, first: nat, n: nat)
    requires AllOnGpu(resmap, first, first + n)
    ensures GpuBytes(resmap, first + n) == GpuBytes(resmap, first) + PAGE_SIZE * n
  {
    if n > 0 {
      GpuRun(resmap, first, n - 1);
    }
  }

  /** Advance the cursor to `to`, adding up the GPU bytes passed. */
  method AdvanceCursor(resmap: seq<byte>, cursor0: nat, bytes0: nat, to: nat) returns (cursor: nat, bytes: nat)
    requires cursor0 <= to <= |resmap| && bytes0 == GpuBytes(resmap, cursor0)
    ensures cursor == to && bytes == GpuBytes(resmap, to)
  {
    cursor, bytes := cursor0, bytes0;
    while cursor < to
      invariant cursor <= to && bytes == GpuBytes(resmap, cursor)
    {
      if resmap[cursor] == ON_GPU {
        bytes := bytes + PAGE_SIZE;
      }
      cursor := cursor + 1;
    }
  }

  method CheckOnGpu(resmap: seq<byte>, first: nat, end: nat) returns (ok: bool)
    requires first <= end <= |resmap|
    ensures ok <==> AllOnGpu(resmap, first, end)
  {
    for p := first to end
      invariant AllOnGpu(resmap, first, p)
    {
      if resmap[p] != ON_GPU { return false; }
    }
    ok := true;
  }

  /** Skip the entries that lie entirely before `off`. */
  method SkipBefore(ms: seq<Meta>, from: nat, off: nat) returns (k: nat, bytes: nat)
    requires from <= |ms| && Acc(ms, from) <= off
    ensures from <= k <= |ms| && bytes == Acc(ms, k) <= off
    ensures k < |ms| ==> Acc(ms, k + 1) > off
  {
    k, bytes := from, Acc(ms, from);
    while k < |ms| && bytes + ms[k].size <= off
      invariant from <= k <= |ms| && bytes == Acc(ms, k) <= off
    {
      bytes := bytes + ms[k].size;
      k := k + 1;
    }
  }

  lemma {:induction false} SkippedPast(ms: seq<Meta>, k: nat, off: nat)
    requires k <= |ms| && Acc(ms, k) < off && (k < |ms| ==> Acc(ms, k + 1) > off)
    ensures !Boundary(ms, off)
  {
    if i :| 0 <= i <= |ms| && Acc(ms, i) == off {
      if i <= k {
        AccMono(ms, i, k);
      } else {
        AccMono(ms, k + 1, i);
      }
    }
  }

  /** One allocation: its GPU offset from the running count, then its metadata. */
  method SliceOne(s: Span, a: AllocSpan, cursor0: nat, bytes0: nat, meta0: nat)
    returns (r: Outcome<Slice>, cursor: nat, bytes: nat, metaIdx: nat)
    requires cursor0 <= a.firstPage && a.End() <= |s.resmap| && bytes0 == GpuBytes(s.resmap, cursor0)
    requires meta0 <= |s.transfers| && Acc(s.transfers, meta0) <= bytes0
    ensures r.Sliced? <==> Sliceable(s, a)
    ensures r.Sliced? ==> SliceOk(s, a, r.value)
    ensures r.Sliced? ==> cursor == a.End() && bytes == GpuBytes(s.resmap, a.End())
    ensures r.Sliced? ==> metaIdx <= |s.transfers| && Acc(s.transfers, metaIdx) == bytes && metaIdx == r.value.metaEnd
  {
    hide FirstReach;
    cursor, bytes, metaIdx := cursor0, bytes0, meta0;
    cursor, bytes := AdvanceCursor(s.resmap, cursor, bytes, a.firstPage);
    CountMono(s.resmap, ON_GPU, cursor0, a.firstPage);
    var gpuOff := bytes;
    var onGpu := CheckOnGpu(s.resmap, a.firstPage, a.End());
    if !onGpu { return Rejected(NotOnGpu), cursor, bytes, metaIdx; }
    GpuRun(s.resmap, a.firstPage, a.pages);
    hide Count;
    cursor, bytes := a.End(), bytes + PAGE_SIZE * a.pages;
    var start, acc := SkipBefore(s.transfers, metaIdx, gpuOff);
    if acc != gpuOff {
      SkippedPast(s.transfers, start, gpuOff);
      return Rejected(MetaSpans), cursor, bytes, metaIdx;
    }
    assert Boundary(s.transfers, gpuOff);
    var end, covered := Walk(s.transfers, start, PAGE_SIZE * a.pages);
    if covered != PAGE_SIZE * a.pages {
      WalkedPast(s.transfers, start, bytes, end);
      return Rejected(MetaShort), cursor, bytes, metaIdx;
    }
    metaIdx := end;
    assert Boundary(s.transfers, bytes);
    r := Sliced(Slice(gpuOff, start, end));
  }

  /** Slice every allocation in one walk. It succeeds exactly when every allocation is
      wholly GPU-resident and starts and ends on transfer boundaries; each offset is then
      the number of GPU bytes anywhere in the span before the allocation. */
  method SliceAllocs(s: Span, allocs: seq<AllocSpan>) returns (r: Outcome<seq<Slice>>)
    requires InOrder(s, allocs)
    ensures r.Sliced? <==> forall i :: 0 <= i < |allocs| ==> Sliceable(s, allocs[i])
    ensures r.Sliced? ==> |r.value| == |allocs| && forall i :: 0 <= i < |allocs| ==> SliceOk(s, allocs[i], r.value[i])
  {
    var cursor: nat, bytes: nat, metaIdx: nat := 0, 0, 0;
    var slices: seq<Slice> := [];
    StartOffsets(s);
    hide Sliceable, SliceOk, GpuBytes;
    for i := 0 to |allocs|
      invariant cursor == (if i == 0 then 0 else allocs[i - 1].End()) && cursor <= |s.resmap|
      invariant bytes == GpuBytes(s.resmap, cursor)
      invariant metaIdx <= |s.transfers| && Acc(s.transfers, metaIdx) == bytes
      invariant forall j :: 0 <= j < i ==> Sliceable(s, allocs[j])
      invariant |slices| == i && forall j :: 0 <= j < i ==> SliceOk(s, allocs[j], slices[j])
    {
      var one;
      one, cursor, bytes, metaIdx := SliceOne(s, allocs[i], cursor, bytes, metaIdx);
      if one.Rejected? { return Rejected(one.error); }
      slices := slices + [one.value];
    }
    r := Sliced(slices);
  }

  // ------------------------------------------------------------- the captures

  function Ones(n: nat): seq<byte> {
    seq(n, _ => ON_GPU)
  }

  ghost predicate SliceInBuffers(s: Span, a: AllocSpan, x: Slice) {
    x.gpuOff + PAGE_SIZE * a.pages <= |s.gpu| && x.metaStart <= x.metaEnd && META_SIZE * x.metaEnd <= |s.meta|
  }

  /** What the writer threads put in the file for an allocation: a map of all ones, no
      CPU section, and the slices of the big buffers. */
  function AllocCapture(s: Span, a: AllocSpan, x: Slice): Capture
    requires SliceInBuffers(s, a, x)
  {
    Capture(s.base + PAGE_SIZE * a.firstPage, PAGE_SIZE * a.pages, Ones(a.pages), [],
            s.gpu[x.gpuOff..x.gpuOff + PAGE_SIZE * a.pages], s.meta[META_SIZE * x.metaStart..META_SIZE * x.metaEnd])
  }

  lemma {:induction false} CountOnes(n: nat, k: nat)
    requires k <= n
    ensures Count(Ones(n), ON_GPU, k) == k && Count(Ones(n), ON_CPU, k) == 0
  {
    if k > 0 {
      CountOnes(n, k - 1);
    }
  }

  lemma {:induction false} AllocPacked(s: Span, a: AllocSpan, x: Slice)
    requires s.Valid() && SliceOk(s, a, x) && AllOnGpu(s.resmap, a.firstPage, a.End())
    ensures SliceInBuffers(s, a, x) && Packed(AllocCapture(s, a, x)) && Packed(s.Whole())
  {
    GpuRun(s.resmap, a.firstPage, a.pages);
    CountMono(s.resmap, ON_GPU, a.End(), |s.resmap|);
    CountOnes(a.pages, a.pages);
    hide Acc, Count;
  }

  /** Each page of the allocation's range has the bytes the span has there, whatever
      other allocations the span holds. */
  lemma {:induction false} AllocBytes(s: Span, a: AllocSpan, x: Slice, p: nat, o: nat)
    requires s.Valid() && SliceOk(s, a, x) && AllOnGpu(s.resmap, a.firstPage, a.End())
    requires p < a.pages && o < PAGE_SIZE
    ensures SliceInBuffers(s, a, x) && Packed(AllocCapture(s, a, x)) && Packed(s.Whole())
    ensures var at := s.base + PAGE_SIZE * (a.firstPage + p) + o;
            CapByte(AllocCapture(s, a, x), at) == CapByte(s.Whole(), at) && CapByte(s.Whole(), at).Some?
  {
    hide Count, Packed, CapByte, Acc;
    AllocPacked(s, a, x);
    var c := AllocCapture(s, a, x);
    CapByteAt(c, p, o);
    CapByteAt(s.Whole(), a.firstPage + p, o);
    CountOnes(a.pages, p);
    GpuRun(s.resmap, a.firstPage, p);
    assert s.resmap[a.firstPage + p] == ON_GPU && c.resmap[p] == ON_GPU;
    SubIndex(s.gpu, x.gpuOff, x.gpuOff + PAGE_SIZE * a.pages, PAGE_SIZE * p + o);
    hide Span.Valid, AllOnGpu;
  }

  function AllocCaptures(s: Span, allocs: seq<AllocSpan>, xs: seq<Slice>): (caps: seq<Capture>)
    requires |xs| == |allocs| && forall i :: 0 <= i < |allocs| ==> SliceInBuffers(s, allocs[i], xs[i])
    ensures |caps| == |allocs| && forall i :: 0 <= i < |allocs| ==> caps[i] == AllocCapture(s, allocs[i], xs[i])
  {
    if allocs == [] then []
    else
      var n := |allocs| - 1;
      AllocCaptures(s, allocs[..n], xs[..n]) + [AllocCapture(s, allocs[n], xs[n])]
  }

  /** For any number of writer threads in any interleaving, the mapped file starts with
      the image the sequential baseline writer builds from the per-allocation slices. */
  lemma {:induction false} CoalescedIsSequential(s: Span, allocs: seq<AllocSpan>, xs: seq<Slice>, trace: seq<Par>)
    requires |xs| == |allocs| && forall i :: 0 <= i < |allocs| ==> SliceInBuffers(s, allocs[i], xs[i])
    requires var caps := AllocCaptures(s, allocs, xs); var k := Baseline(3);
             Run(DataStart(k, |caps|), caps, Front(k, caps), trace) && AtEnd(|caps|, trace[|trace| - 1].at)
    ensures Image(Baseline(3), AllocCaptures(s, allocs, xs)) <= trace[|trace| - 1].img
  {
    ParallelIsSequential(Baseline(3), AllocCaptures(s, allocs, xs), trace);
  }
}
