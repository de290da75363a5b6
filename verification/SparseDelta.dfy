/** The fused dirty delta: one capture of the whole span, most of its pages absent, is
    cut into regions of present pages without copying. */
module SparseDelta {
  import opened Bytes
  import opened ImageFormat
  import opened PageMap
  import opened RestoreJobs
  import opened RestoreFull
  import opened RestoreGroups
  import RestoreRead
  import opened RestoreRoundTrip

  const ABSENT: byte := 2
  const META_SIZE: nat := 41

  /** A span as the driver returns it: packed sections, and one metadata entry per
      transfer of the GPU section. */
  datatype Span = Span(base: nat, resmap: seq<byte>, cpu: seq<byte>, gpu: seq<byte>, transfers: seq<Meta>, meta: seq<byte>) {
    ghost predicate Valid() {
      && (forall p :: 0 <= p < |resmap| ==> resmap[p] <= ABSENT)
      && PAGE_SIZE * Count(resmap, ON_CPU, |resmap|) <= |cpu|
      && PAGE_SIZE * Count(resmap, ON_GPU, |resmap|) <= |gpu|
      && |meta| == META_SIZE * |transfers|
    }

    /** The span as a single capture. */
    function Whole(): Capture {
      Capture(base, PAGE_SIZE * |resmap|, resmap, cpu, gpu, meta)
    }
  }

  /** A run of present pages with its slices of the three packed buffers. */
  datatype Region = Region(first: nat, end: nat, cpuOff: nat, cpuIn: nat, gpuOff: nat, gpuIn: nat, metaStart: nat, metaEnd: nat)

  // ------------------------------------------------------------------- runs

  /** The maximal runs of present pages, page by page. */
  function Runs(resmap: seq<byte>, n: nat): (rs: seq<(nat, nat)>)
    requires n <= |resmap|
    ensures |rs| <= n
    ensures n > 0 && resmap[n - 1] != ABSENT ==> rs != []
  {
    if n == 0 then []
    else
      var rs := Runs(resmap, n - 1);
      if resmap[n - 1] == ABSENT then rs
      else if n > 1 && resmap[n - 2] != ABSENT then rs[..|rs| - 1] + [(rs[|rs| - 1].0, n)]
      else rs + [(n - 1, n)]
  }

  ghost predicate AllPresent(resmap: seq<byte>, s: nat, e: nat) {
    s <= e <= |resmap| && forall p :: s <= p < e ==> resmap[p] != ABSENT
  }

  /** From the start of a run, its pages extend the last run only. */
  lemma {:induction false} RunGrows(resmap: seq<byte>, s: nat, e: nat)
    requires s < e && AllPresent(resmap, s, e) && (s == 0 || resmap[s - 1] == ABSENT)
    ensures Runs(resmap, e) == Runs(resmap, s) + [(s, e)]
  {
    assert resmap[e - 1] != ABSENT;
    assert s + 1 < e ==> AllPresent(resmap, s, e - 1) && resmap[e - 2] != ABSENT;
    hide AllPresent;
    if s + 1 < e {
      RunGrows(resmap, s, e - 1);
      var rs := Runs(resmap, s);
      assert (rs + [(s, e - 1)])[..|rs|] == rs;
    }
  }

  /** A non-empty run, present throughout, that cannot be extended below page `n`. */
  ghost predicate RunOk(resmap: seq<byte>, n: nat, r: (nat, nat))
    requires n <= |resmap|
  {
    && r.0 < r.1 <= n && AllPresent(resmap, r.0, r.1)
    && (r.0 > 0 ==> resmap[r.0 - 1] == ABSENT) && (r.1 < n ==> resmap[r.1] == ABSENT)
  }

  /** Runs in order, apart, maximal, and reaching page `n` when it follows a present one. */
  ghost predicate RunsOk(resmap: seq<byte>, n: nat, rs: seq<(nat, nat)>)
    requires n <= |resmap|
  {
    && (forall i :: 0 <= i < |rs| ==> RunOk(resmap, n, rs[i]))
    && (forall i, j :: 0 <= i < j < |rs| ==> rs[i].1 < rs[j].0)
    && (n > 0 && resmap[n - 1] != ABSENT ==> rs != [] && rs[|rs| - 1].1 == n)
  }

  lemma {:induction false} RunKeepsAway(resmap: seq<byte>, n: nat, r: (nat, nat))
    requires 0 < n <= |resmap| && RunOk(resmap, n - 1, r) && (r.1 == n - 1 ==> resmap[n - 1] == ABSENT)
    ensures RunOk(resmap, n, r)
  {
  }

  lemma {:induction false} AbsentPage(resmap: seq<byte>, n: nat, rs: seq<(nat, nat)>)
    requires 0 < n <= |resmap| && RunsOk(resmap, n - 1, rs) && resmap[n - 1] == ABSENT
    ensures RunsOk(resmap, n, rs)
  {
    hide RunOk;
    forall i | 0 <= i < |rs| ensures RunOk(resmap, n, rs[i]) {
      RunKeepsAway(resmap, n, rs[i]);
    }
  }

  lemma {:induction false} FirstPage(resmap: seq<byte>, n: nat, rs: seq<(nat, nat)>)
    requires 0 < n <= |resmap| && RunsOk(resmap, n - 1, rs) && resmap[n - 1] != ABSENT && (n > 1 ==> resmap[n - 2] == ABSENT)
    ensures RunsOk(resmap, n, rs + [(n - 1, n)])
  {
    assert RunOk(resmap, n, (n - 1, n));
    forall i | 0 <= i < |rs| ensures RunOk(resmap, n, rs[i]) && rs[i].1 < n - 1 {
      assert RunOk(resmap, n - 1, rs[i]) && resmap[rs[i].1 - 1] != ABSENT;
    }
    hide RunOk;
  }

  lemma {:induction false} NextPage(resmap: seq<byte>, n: nat, rs: seq<(nat, nat)>)
    requires 1 < n <= |resmap| && RunsOk(resmap, n - 1, rs) && resmap[n - 1] != ABSENT && resmap[n - 2] != ABSENT
    ensures rs != [] && RunsOk(resmap, n, rs[..|rs| - 1] + [(rs[|rs| - 1].0, n)])
  {
    var last := |rs| - 1;
    assert RunOk(resmap, n - 1, rs[last]) && RunOk(resmap, n, (rs[last].0, n));
    hide RunOk;
    forall i | 0 <= i < last ensures RunOk(resmap, n, rs[i]) {
      assert rs[i].1 < rs[last].0;
      RunEndsBefore(resmap, n - 1, rs[last]);
      RunKeepsAway(resmap, n, rs[i]);
    }
  }

  lemma {:induction false} RunEndsBefore(resmap: seq<byte>, n: nat, r: (nat, nat))
    requires n <= |resmap| && RunOk(resmap, n, r)
    ensures r.0 < r.1 <= n
  {
  }

  /** Runs are in order, apart and maximal. */
  lemma {:induction false} RunsMaximal(resmap: seq<byte>, n: nat)
    requires n <= |resmap|
    ensures RunsOk(resmap, n, Runs(resmap, n))
  {
    hide RunsOk;
    if n == 0 {
      NoRuns(resmap);
    } else {
      RunsMaximal(resmap, n - 1);
      if resmap[n - 1] == ABSENT {
        AbsentPage(resmap, n, Runs(resmap, n - 1));
      } else if n > 1 && resmap[n - 2] != ABSENT {
        NextPage(resmap, n, Runs(resmap, n - 1));
      } else {
        FirstPage(resmap, n, Runs(resmap, n - 1));
      }
    }
  }

  lemma {:induction false} NoRuns(resmap: seq<byte>)
    ensures RunsOk(resmap, 0, [])
  {
  }

  /** Every present page is in a run. */
  lemma {:induction false} PageInRun(resmap: seq<byte>, n: nat, p: nat) returns (i: nat)
    requires p < n <= |resmap| && resmap[p] != ABSENT
    ensures i < |Runs(resmap, n)| && Runs(resmap, n)[i].0 <= p < Runs(resmap, n)[i].1
  {
    if p == n - 1 {
      i := |Runs(resmap, n)| - 1;
      LastRun(resmap, n);
    } else {
      i := PageInRun(resmap, n - 1, p);
      RunStays(resmap, n, i);
      hide Runs;
    }
  }

  lemma {:induction false} LastRun(resmap: seq<byte>, n: nat)
    requires 0 < n <= |resmap| && resmap[n - 1] != ABSENT
    ensures Runs(resmap, n) != [] && Runs(resmap, n)[|Runs(resmap, n)| - 1].0 < n == Runs(resmap, n)[|Runs(resmap, n)| - 1].1
  {
    RunsMaximal(resmap, n);
    assert RunOk(resmap, n, Runs(resmap, n)[|Runs(resmap, n)| - 1]);
    hide RunOk, AllPresent;
  }

  /** A further page can only lengthen a run. */
  lemma {:induction false} RunStays(resmap: seq<byte>, n: nat, i: nat)
    requires 0 < n <= |resmap| && i < |Runs(resmap, n - 1)|
    ensures i < |Runs(resmap, n)| && Runs(resmap, n)[i].0 == Runs(resmap, n - 1)[i].0 && Runs(resmap, n - 1)[i].1 <= Runs(resmap, n)[i].1
  {
    RunEnds(resmap, n - 1, i);
    LongerOnly(Runs(resmap, n - 1), n, i);
    hide RunOk, RunsOk;
  }

  /** Both ways a present page goes into the list keep the earlier starts. */
  lemma {:induction false} LongerOnly(rs: seq<(nat, nat)>, n: nat, i: nat)
    requires n > 0 && i < |rs| && rs[i].1 <= n - 1
    ensures var a := rs[..|rs| - 1] + [(rs[|rs| - 1].0, n)]; |a| == |rs| && a[i].0 == rs[i].0 && rs[i].1 <= a[i].1
    ensures (rs + [(n - 1, n)])[i] == rs[i]
  {
  }

  lemma {:induction false} RunEnds(resmap: seq<byte>, n: nat, i: nat)
    requires n <= |resmap| && i < |Runs(resmap, n)|
    ensures Runs(resmap, n)[i].1 <= n
  {
    hide AllPresent, Runs;
    RunsMaximal(resmap, n);
    assert RunOk(resmap, n, Runs(resmap, n)[i]);
  }

  /** A run that has ended stays as it is. */
  lemma {:induction false} RunKept(resmap: seq<byte>, e: nat, n: nat)
    requires e <= n <= |resmap| && (e < n ==> resmap[e] == ABSENT)
    ensures |Runs(resmap, e)| <= |Runs(resmap, n)| && Runs(resmap, n)[..|Runs(resmap, e)|] == Runs(resmap, e)
    ensures e < n && resmap[n - 1] != ABSENT ==> |Runs(resmap, e)| < |Runs(resmap, n)|
  {
    if e < n {
      RunKept(resmap, e, n - 1);
    } else {
      assert Runs(resmap, n)[..|Runs(resmap, n)|] == Runs(resmap, n);
    }
  }

  /** First pass: count the runs and their pages. */
  method CountRegions(resmap: seq<byte>) returns (regions: nat, present: nat)
    ensures regions == |Runs(resmap, |resmap|)|
    ensures present == |resmap| - Count(resmap, ABSENT, |resmap|)
  {
    regions, present := 0, 0;
    var p := 0;
    while p < |resmap|
      invariant p <= |resmap| && regions == |Runs(resmap, p)| && present == p - Count(resmap, ABSENT, p)
      invariant 0 < p < |resmap| && resmap[p - 1] != ABSENT ==> resmap[p] == ABSENT
    {
      if resmap[p] == ABSENT {
        p := p + 1;
      } else {
        regions := regions + 1;
        ghost var s := p;
        while p < |resmap| && resmap[p] != ABSENT
          invariant s <= p <= |resmap| && AllPresent(resmap, s, p) && present == p - Count(resmap, ABSENT, p)
        {
          present, p := present + 1, p + 1;
        }
        RunGrows(resmap, s, p);
      }
    }
  }

  // ----------------------------------------------------------------- regions

  function CpuBytes(resmap: seq<byte>, p: nat): nat
    requires p <= |resmap|
  {
    PAGE_SIZE * Count(resmap, ON_CPU, p)
  }

  function GpuBytes(resmap: seq<byte>, p: nat): nat
    requires p <= |resmap|
  {
    PAGE_SIZE * Count(resmap, ON_GPU, p)
  }

  /** Region `i` is run `i`, and its slices start where those of the runs before end. */
  ghost predicate RegionOk(s: Span, run: (nat, nat), r: Region) {
    && run.0 <= run.1 <= |s.resmap| && r.first == run.0 && r.end == run.1
    && r.cpuOff == CpuBytes(s.resmap, r.first) && r.cpuOff + r.cpuIn == CpuBytes(s.resmap, r.end)
    && r.gpuOff == GpuBytes(s.resmap, r.first) && r.gpuOff + r.gpuIn == GpuBytes(s.resmap, r.end)
    && r.metaStart <= r.metaEnd <= |s.transfers|
    && Acc(s.transfers, r.metaStart) == r.gpuOff && Acc(s.transfers, r.metaEnd) == r.gpuOff + r.gpuIn
  }

  ghost predicate RegionsOk(s: Span, n: nat, rs: seq<Region>)
    requires n <= |s.resmap|
  {
    && |rs| == |Runs(s.resmap, n)|
    && (forall i :: 0 <= i < |rs| ==> RegionOk(s, Runs(s.resmap, n)[i], rs[i]))
    && (forall i :: 0 < i < |rs| ==> rs[i].metaStart == rs[i - 1].metaEnd)
    && (rs != [] ==> rs[0].metaStart == 0)
  }

  /** Every run ends on a transfer boundary. */
  ghost predicate RunsAligned(s: Span, n: nat)
    requires n <= |s.resmap|
  {
    forall i :: 0 <= i < |Runs(s.resmap, n)| ==> RunAligned(s, Runs(s.resmap, n)[i])
  }

  ghost predicate RunAligned(s: Span, run: (nat, nat)) {
    run.1 <= |s.resmap| && Boundary(s.transfers, GpuBytes(s.resmap, run.1))
  }

  /** Absent pages move neither section offset. */
  lemma {:induction false} AbsentMovesNothing(resmap: seq<byte>, p: nat)
    requires p < |resmap| && resmap[p] == ABSENT
    ensures CpuBytes(resmap, p + 1) == CpuBytes(resmap, p) && GpuBytes(resmap, p + 1) == GpuBytes(resmap, p)
    ensures Runs(resmap, p + 1) == Runs(resmap, p)
  {
  }

  /** The inner walk over one run: its end, and how many bytes of each kind it has. */
  method WalkRun(resmap: seq<byte>, s: nat) returns (e: nat, cpuIn: nat, gpuIn: nat)
    requires s < |resmap| && resmap[s] != ABSENT && forall p :: 0 <= p < |resmap| ==> resmap[p] <= ABSENT
    ensures s < e <= |resmap| && AllPresent(resmap, s, e) && (e < |resmap| ==> resmap[e] == ABSENT)
    ensures CpuBytes(resmap, s) + cpuIn == CpuBytes(resmap, e) && GpuBytes(resmap, s) + gpuIn == GpuBytes(resmap, e)
  {
    e, cpuIn, gpuIn := s, 0, 0;
    while e < |resmap| && resmap[e] != ABSENT
      invariant s <= e <= |resmap| && AllPresent(resmap, s, e)
      invariant CpuBytes(resmap, s) + cpuIn == CpuBytes(resmap, e) && GpuBytes(resmap, s) + gpuIn == GpuBytes(resmap, e)
    {
      if resmap[e] == ON_CPU {
        cpuIn := cpuIn + PAGE_SIZE;
      } else {
        gpuIn := gpuIn + PAGE_SIZE;
      }
      e := e + 1;
    }
  }

  /** Cut the buffers for the run that starts at page `start`: refused when the walk over
      the metadata does not end where the run does. */
  method CutRegion(s: Span, start: nat, cpuOff: nat, gpuOff: nat, metaIdx: nat, metaAcc: nat, ghost regions: seq<Region>)
    returns (r: Result<Region>)
    requires s.Valid() && start < |s.resmap| && s.resmap[start] != ABSENT && (start > 0 ==> s.resmap[start - 1] == ABSENT)
    requires RunsAligned(s, start) && RegionsOk(s, start, regions)
    requires cpuOff == CpuBytes(s.resmap, start) && gpuOff == GpuBytes(s.resmap, start)
    requires metaIdx <= |s.transfers| && metaAcc == Acc(s.transfers, metaIdx) == gpuOff
    requires if regions == [] then metaIdx == 0 else regions[|regions| - 1].metaEnd == metaIdx
    ensures r.Err? ==> !RunsAligned(s, |s.resmap|)
    ensures r.Ok? ==> start < r.value.end <= |s.resmap| && RunsAligned(s, r.value.end)
                      && RegionsOk(s, r.value.end, regions + [r.value]) && RegionOk(s, (start, r.value.end), r.value)
                      && (r.value.end < |s.resmap| ==> s.resmap[r.value.end] == ABSENT)
    ensures r.Ok? ==> r.value.cpuOff == cpuOff && r.value.gpuOff == gpuOff
  {
    hide RegionsOk, RunsAligned, FirstReach, Runs, Count, Acc, CpuBytes, GpuBytes;
    var p, cpuIn, gpuIn := WalkRun(s.resmap, start);
    RunGrows(s.resmap, start, p);
    if metaAcc != gpuOff { return Err(Misaligned); }
    var target := gpuOff + gpuIn;
    var metaEnd, bytes := Walk(s.transfers, metaIdx, target - metaAcc);
    if metaAcc + bytes != target {
      NoBoundaryAhead(s, start, p, metaIdx, metaEnd);
      return Err(Misaligned);
    }
    var region := Region(start, p, cpuOff, cpuIn, gpuOff, gpuIn, metaIdx, metaEnd);
    NextRegion(s, start, p, regions, region);
    r := Ok(region);
  }

  /** Second pass: cut the buffers along the runs. It rejects exactly when some run
      does not end on a transfer boundary; it never finds the metadata out of step at
      the start of a run. */
  method SliceRegions(s: Span) returns (r: Result<seq<Region>>)
    requires s.Valid()
    ensures r.Ok? <==> RunsAligned(s, |s.resmap|)
    ensures r.Ok? ==> RegionsOk(s, |s.resmap|, r.value)
  {
    var cpuOff: nat, gpuOff: nat, metaIdx: nat, metaAcc: nat := 0, 0, 0, 0;
    var regions: seq<Region> := [];
    var p: nat := 0;
    assert RunsAligned(s, 0) && RegionsOk(s, 0, regions) && Acc(s.transfers, 0) == 0;
    hide RegionsOk, RunsAligned, FirstReach, Runs, Count, Acc, CpuBytes, GpuBytes;
    StartOffsets(s);
    while p < |s.resmap|
      invariant p <= |s.resmap| && RunsAligned(s, p) && RegionsOk(s, p, regions)
      invariant cpuOff == CpuBytes(s.resmap, p) && gpuOff == GpuBytes(s.resmap, p)
      invariant metaIdx <= |s.transfers| && metaAcc == Acc(s.transfers, metaIdx) == gpuOff
      invariant if regions == [] then metaIdx == 0 else regions[|regions| - 1].metaEnd == metaIdx
      invariant 0 < p < |s.resmap| && s.resmap[p - 1] != ABSENT ==> s.resmap[p] == ABSENT
    {
      if s.resmap[p] == ABSENT {
        AbsentKeeps(s, p, regions);
        p := p + 1;
      } else {
        var cut := CutRegion(s, p, cpuOff, gpuOff, metaIdx, metaAcc, regions);
        if cut.Err? { return Err(cut.error); }
        var region := cut.value;
        regions := regions + [region];
        p, metaIdx := region.end, region.metaEnd;
        metaAcc := metaAcc + region.gpuIn;
        cpuOff, gpuOff := cpuOff + region.cpuIn, gpuOff + region.gpuIn;
      }
    }
    r := Ok(regions);
  }

  lemma {:induction false} StartOffsets(s: Span)
    ensures CpuBytes(s.resmap, 0) == 0 && GpuBytes(s.resmap, 0) == 0
  {
  }

  lemma {:induction false} AbsentKeeps(s: Span, p: nat, rs: seq<Region>)
    requires p < |s.resmap| && s.resmap[p] == ABSENT && RunsAligned(s, p) && RegionsOk(s, p, rs)
    ensures RunsAligned(s, p + 1) && RegionsOk(s, p + 1, rs)
    ensures CpuBytes(s.resmap, p + 1) == CpuBytes(s.resmap, p) && GpuBytes(s.resmap, p + 1) == GpuBytes(s.resmap, p)
  {
    AbsentMovesNothing(s.resmap, p);
  }

  lemma {:induction false} NextRegion(s: Span, start: nat, end: nat, rs: seq<Region>, r: Region)
    requires start < end <= |s.resmap| && Runs(s.resmap, end) == Runs(s.resmap, start) + [(start, end)]
    requires RunsAligned(s, start) && RegionsOk(s, start, rs) && RegionOk(s, (start, end), r)
    requires if rs == [] then r.metaStart == 0 else r.metaStart == rs[|rs| - 1].metaEnd
    ensures RunsAligned(s, end) && RegionsOk(s, end, rs + [r])
  {
    assert Boundary(s.transfers, GpuBytes(s.resmap, end));
    assert RunAligned(s, (start, end));
    hide RegionOk, RunAligned, Runs, Boundary;
  }

  /** A walk that does not stop at the run's end shows no transfer ends there. */
  lemma {:induction false} NoBoundaryAhead(s: Span, start: nat, end: nat, k: nat, stop: nat)
    requires start < end <= |s.resmap| && Runs(s.resmap, end) == Runs(s.resmap, start) + [(start, end)]
    requires k <= |s.transfers| && Acc(s.transfers, k) == GpuBytes(s.resmap, start) <= GpuBytes(s.resmap, end)
    requires FirstReach(s.transfers, k, GpuBytes(s.resmap, end) - GpuBytes(s.resmap, start), stop)
    requires Acc(s.transfers, stop) != GpuBytes(s.resmap, end)
    requires end < |s.resmap| ==> s.resmap[end] == ABSENT
    ensures !RunsAligned(s, |s.resmap|)
  {
    WalkedPast(s.transfers, k, GpuBytes(s.resmap, end), stop);
    RunKept(s.resmap, end, |s.resmap|);
    hide Runs, Acc, FirstReach, Boundary;
    var i := |Runs(s.resmap, start)|;
    assert Runs(s.resmap, |s.resmap|)[..i + 1][i] == (start, end);
    assert !RunAligned(s, Runs(s.resmap, |s.resmap|)[i]);
  }

  lemma {:induction false} WalkedPast(ms: seq<Meta>, k: nat, target: nat, stop: nat)
    requires k <= |ms| && Acc(ms, k) <= target && FirstReach(ms, k, target - Acc(ms, k), stop)
    requires Acc(ms, stop) != target
    ensures !Boundary(ms, target)
  {
    if i :| 0 <= i <= |ms| && Acc(ms, i) == target {
      if i < k {
        AccMono(ms, i, k);
        AccMono(ms, k, stop);
      } else if stop <= i {
        AccMono(ms, stop, i);
      }
    }
  }

  // ------------------------------------------------------------- acceptance

  /** No transfer crosses the end of a run, and the transfers cover the GPU bytes. */
  ghost predicate TransfersFit(s: Span) {
    && Acc(s.transfers, |s.transfers|) == GpuBytes(s.resmap, |s.resmap|)
    && forall i, k :: 0 <= i < |Runs(s.resmap, |s.resmap|)| && 0 <= k < |s.transfers| ==>
         !Crosses(s, k, Runs(s.resmap, |s.resmap|)[i].1)
  }

  /** Transfer `k` has bytes on both sides of page `e`. */
  ghost predicate Crosses(s: Span, k: nat, e: nat)
    requires k < |s.transfers|
  {
    e <= |s.resmap| && Acc(s.transfers, k) < GpuBytes(s.resmap, e) < Acc(s.transfers, k + 1)
  }

  /** An offset inside the transfers that no transfer crosses is a boundary. */
  lemma {:induction false} UncrossedBoundary(ms: seq<Meta>, x: nat, n: nat)
    requires n <= |ms| && x <= Acc(ms, n)
    requires forall k :: 0 <= k < |ms| ==> !(Acc(ms, k) < x < Acc(ms, k + 1))
    ensures Boundary(ms, x)
  {
    if Acc(ms, n) != x {
      UncrossedBoundary(ms, x, n - 1);
    }
  }

  /** When the driver breaks transfers at absent pages the walk never rejects. */
  lemma {:induction false} NeverRejects(s: Span)
    requires TransfersFit(s)
    ensures RunsAligned(s, |s.resmap|)
  {
    var n := |s.resmap|;
    RunsMaximal(s.resmap, n);
    forall i | 0 <= i < |Runs(s.resmap, n)| ensures RunAligned(s, Runs(s.resmap, n)[i]) {
      var e := Runs(s.resmap, n)[i].1;
      CountMono(s.resmap, ON_GPU, e, n);
      forall k | 0 <= k < |s.transfers| ensures !(Acc(s.transfers, k) < GpuBytes(s.resmap, e) < Acc(s.transfers, k + 1)) {
        assert !Crosses(s, k, e);
      }
      UncrossedBoundary(s.transfers, GpuBytes(s.resmap, e), |s.transfers|);
    }
  }

  // -------------------------------------------------------------- the slices

  /** A region as the writer gets it: slices of the span's buffers. */
  ghost predicate InBuffers(s: Span, r: Region) {
    && r.first <= r.end <= |s.resmap| && r.cpuOff + r.cpuIn <= |s.cpu| && r.gpuOff + r.gpuIn <= |s.gpu|
    && r.metaStart <= r.metaEnd && META_SIZE * r.metaEnd <= |s.meta|
  }

  function RegionCapture(s: Span, r: Region): Capture
    requires InBuffers(s, r)
  {
    Capture(s.base + PAGE_SIZE * r.first, PAGE_SIZE * (r.end - r.first), s.resmap[r.first..r.end],
            s.cpu[r.cpuOff..r.cpuOff + r.cpuIn], s.gpu[r.gpuOff..r.gpuOff + r.gpuIn],
            s.meta[META_SIZE * r.metaStart..META_SIZE * r.metaEnd])
  }

  lemma {:induction false} RegionInBuffers(s: Span, run: (nat, nat), r: Region)
    requires s.Valid() && RegionOk(s, run, r)
    ensures InBuffers(s, r)
  {
    CountMono(s.resmap, ON_CPU, r.end, |s.resmap|);
    CountMono(s.resmap, ON_GPU, r.end, |s.resmap|);
  }

  /** Counting in a slice of the map. */
  lemma {:induction false} CountSlice(resmap: seq<byte>, v: byte, s: nat, e: nat, k: nat)
    requires s + k <= e <= |resmap|
    ensures Count(resmap[s..e], v, k) == Count(resmap, v, s + k) - Count(resmap, v, s)
  {
    if k > 0 {
      CountSlice(resmap, v, s, e, k - 1);
    }
  }

  /** A region's packed sections are exactly its pages. */
  lemma {:induction false} RegionPacked(s: Span, run: (nat, nat), r: Region)
    requires s.Valid() && RegionOk(s, run, r)
    ensures InBuffers(s, r) && Packed(RegionCapture(s, r)) && Packed(s.Whole())
  {
    RegionInBuffers(s, run, r);
    CountSlice(s.resmap, ON_CPU, r.first, r.end, r.end - r.first);
    CountSlice(s.resmap, ON_GPU, r.first, r.end, r.end - r.first);
    hide Count, Acc;
  }

  /** Each of a region's pages has the bytes the span has there. */
  lemma {:induction false} RegionBytes(s: Span, run: (nat, nat), r: Region, a: nat)
    requires s.Valid() && RegionOk(s, run, r)
    ensures InBuffers(s, r) && Packed(RegionCapture(s, r)) && Packed(s.Whole())
    ensures InPages(RegionCapture(s, r), a) ==> CapByte(RegionCapture(s, r), a) == CapByte(s.Whole(), a)
  {
    hide Count, CapByte, PageByte, Acc, Packed;
    RegionPacked(s, run, r);
    var c := RegionCapture(s, r);
    if InPages(c, a) {
      PageInMap(c, a);
      var p, o := PageOf(c, a), (a - c.base) % PAGE_SIZE;
      PagesAgree(s, run, r, p, o);
      CapByteAt(c, p, o);
      assert a == s.base + PAGE_SIZE * (r.first + p) + o;
      CapByteAt(s.Whole(), r.first + p, o);
    }
  }

  lemma {:induction false} PagesAgree(s: Span, run: (nat, nat), r: Region, p: nat, o: nat)
    requires s.Valid() && RegionOk(s, run, r) && InBuffers(s, r) && p < r.end - r.first && o < PAGE_SIZE
    requires Packed(RegionCapture(s, r)) && Packed(s.Whole())
    ensures PageByte(RegionCapture(s, r), p, o) == PageByte(s.Whole(), r.first + p, o)
  {
    hide Acc, Packed, Span.Valid, Count;
    var v := s.resmap[r.first + p];
    assert RegionCapture(s, r).resmap[p] == v;
    if v == ON_CPU {
      SliceAgrees(s.resmap, s.cpu, v, r.first, r.end, p, o, r.cpuOff, r.cpuIn);
    } else if v == ON_GPU {
      SliceAgrees(s.resmap, s.gpu, v, r.first, r.end, p, o, r.gpuOff, r.gpuIn);
    }
    hide RegionOk;
  }

  /** Byte `o` of a page, in the slice of its section and in the section. */
  lemma {:induction false} SliceAgrees(resmap: seq<byte>, section: seq<byte>, v: byte, first: nat, end: nat, p: nat, o: nat, off: nat, len: nat)
    requires first + p < end <= |resmap| && resmap[first + p] == v && o < PAGE_SIZE
    requires off == PAGE_SIZE * Count(resmap, v, first) && off + len == PAGE_SIZE * Count(resmap, v, end) <= |section|
    ensures PAGE_SIZE * Count(resmap[first..end], v, p) + o < len
    ensures PAGE_SIZE * Count(resmap, v, first + p) + o < |section|
    ensures section[off..off + len][PAGE_SIZE * Count(resmap[first..end], v, p) + o] == section[PAGE_SIZE * Count(resmap, v, first + p) + o]
  {
    hide Count;
    CountSlice(resmap, v, first, end, p);
    InSection(resmap, v, first, end, first + p);
    SubIndex(section, off, off + len, PAGE_SIZE * Count(resmap[first..end], v, p) + o);
  }

  lemma {:induction false} InSection(resmap: seq<byte>, v: byte, s: nat, e: nat, p: nat)
    requires s <= p < e <= |resmap| && resmap[p] == v
    ensures Count(resmap, v, s) <= Count(resmap, v, p) < Count(resmap, v, e)
  {
    CountMono(resmap, v, s, p);
    CountNext(resmap, v, p, e);
  }

  lemma {:induction false} SubIndex(b: seq<byte>, lo: nat, hi: nat, i: nat)
    requires lo <= hi <= |b| && i < hi - lo
    ensures b[lo..hi][i] == b[lo + i]
  {
  }

  function RegionCaptures(s: Span, rs: seq<Region>): (caps: seq<Capture>)
    requires forall i :: 0 <= i < |rs| ==> InBuffers(s, rs[i])
    ensures |caps| == |rs| && forall i :: 0 <= i < |rs| ==> caps[i] == RegionCapture(s, rs[i])
  {
    if rs == [] then [] else RegionCaptures(s, rs[..|rs| - 1]) + [RegionCapture(s, rs[|rs| - 1])]
  }

  lemma {:induction false} AllRegions(s: Span, rs: seq<Region>)
    requires s.Valid() && RegionsOk(s, |s.resmap|, rs)
    ensures forall i :: 0 <= i < |rs| ==> InBuffers(s, rs[i])
    ensures AllPacked(RegionCaptures(s, rs))
  {
    forall i | 0 <= i < |rs| ensures InBuffers(s, rs[i]) && Packed(RegionCapture(s, rs[i])) {
      RegionBytes(s, Runs(s.resmap, |s.resmap|)[i], rs[i], 0);
    }
    hide RegionOk, Packed, Runs;
  }

  /** Page `p` of the span is in region `i` only. */
  lemma {:induction false} InOneRegion(s: Span, rs: seq<Region>, a: nat, i: nat, j: nat)
    requires s.Valid() && RegionsOk(s, |s.resmap|, rs) && i < |rs| && j < |rs|
    requires InBuffers(s, rs[i]) && InBuffers(s, rs[j])
    requires InPages(RegionCapture(s, rs[i]), a) && InPages(RegionCapture(s, rs[j]), a)
    ensures i == j
  {
    var runs := Runs(s.resmap, |s.resmap|);
    assert RegionOk(s, runs[i], rs[i]) && RegionOk(s, runs[j], rs[j]);
    RunsMaximal(s.resmap, |s.resmap|);
    assert forall x, y :: 0 <= x < y < |runs| ==> runs[x].1 < runs[y].0;
  }

  /** Overlaying the regions one by one is overlaying the whole capture page by page. */
  lemma {:induction false} RegionsOverlay(s: Span, rs: seq<Region>, a: nat, under: byte)
    requires s.Valid() && RegionsOk(s, |s.resmap|, rs)
    ensures forall i :: 0 <= i < |rs| ==> InBuffers(s, rs[i])
    ensures AllPacked(RegionCaptures(s, rs)) && Packed(s.Whole())
    ensures Overlay(RegionCaptures(s, rs), |rs|, a, under) == Laid(s.Whole(), a, under)
  {
    AllRegions(s, rs);
    var caps := RegionCaptures(s, rs);
    RegionsDisjoint(s, rs);
    hide CapByte, Packed, RegionOk, Disjoint;
    if i :| 0 <= i < |rs| && InPages(caps[i], a) {
      OverlayDisjoint(caps, |rs|, i, a, under);
      RegionBytes(s, Runs(s.resmap, |s.resmap|)[i], rs[i], a);
    } else {
      OverlayOutside(caps, |rs|, a, under);
      NoRegionHas(s, rs, a);
    }
  }

  lemma {:induction false} RegionsDisjoint(s: Span, rs: seq<Region>)
    requires s.Valid() && RegionsOk(s, |s.resmap|, rs)
    requires forall i :: 0 <= i < |rs| ==> InBuffers(s, rs[i])
    ensures Disjoint(RegionCaptures(s, rs))
  {
    hide RegionsOk;
    var caps := RegionCaptures(s, rs);
    forall i, j, a | 0 <= i < |caps| && 0 <= j < |caps| && InPages(caps[i], a) && InPages(caps[j], a) ensures i == j {
      InOneRegion(s, rs, a, i, j);
    }
  }

  /** A byte on a present page is in some region. */
  lemma {:induction false} RegionHas(s: Span, rs: seq<Region>, a: nat) returns (i: nat)
    requires s.Valid() && RegionsOk(s, |s.resmap|, rs)
    requires InPages(s.Whole(), a) && PageOf(s.Whole(), a) < |s.resmap| && s.resmap[PageOf(s.Whole(), a)] != ABSENT
    requires forall i :: 0 <= i < |rs| ==> InBuffers(s, rs[i])
    ensures i < |rs| && InPages(RegionCapture(s, rs[i]), a)
  {
    PageInMap(s.Whole(), a);
    i := PageInRun(s.resmap, |s.resmap|, PageOf(s.Whole(), a));
    assert RegionOk(s, Runs(s.resmap, |s.resmap|)[i], rs[i]);
    hide Runs, Acc, Count;
  }

  /** A byte in no region is on an absent page, or outside the span. */
  lemma {:induction false} NoRegionHas(s: Span, rs: seq<Region>, a: nat)
    requires s.Valid() && RegionsOk(s, |s.resmap|, rs) && Packed(s.Whole())
    requires forall i :: 0 <= i < |rs| ==> InBuffers(s, rs[i]) && !InPages(RegionCapture(s, rs[i]), a)
    ensures CapByte(s.Whole(), a) == None
  {
    var c := s.Whole();
    if InPages(c, a) {
      PageInMap(c, a);
      if s.resmap[PageOf(c, a)] != ABSENT {
        var i := RegionHas(s, rs, a);
      }
    } else {
      OutsideNone(c, a);
    }
    hide RegionOk, Runs;
  }

  /** No transfer from `k` on is empty. */
  ghost predicate NoneEmptyFrom(s: Span, k: nat) {
    forall m :: k <= m < |s.transfers| ==> s.transfers[m].size > 0
  }

  /** When the transfers up to `k` hold all bytes, those behind are empty. */
  lemma {:induction false} AllTransfers(s: Span, k: nat)
    requires k <= |s.transfers| && Acc(s.transfers, k) == Acc(s.transfers, |s.transfers|)
    ensures k == |s.transfers| <==> NoneEmptyFrom(s, k)
  {
    if k < |s.transfers| {
      AccMono(s.transfers, k + 1, |s.transfers|);
      assert s.transfers[k].size == 0;
    }
  }

  /** The CPU slices follow one another from the start of the CPU section to its end,
      and likewise the GPU and metadata slices: nothing captured is left out but empty
      transfers at the very end. */
  lemma {:induction false} SlicesTile(s: Span, rs: seq<Region>, i: nat)
    requires s.Valid() && RegionsOk(s, |s.resmap|, rs) && i < |rs|
    ensures i == 0 ==> rs[i].cpuOff == 0 && rs[i].gpuOff == 0 && rs[i].metaStart == 0
    ensures i > 0 ==> rs[i].cpuOff == rs[i - 1].cpuOff + rs[i - 1].cpuIn
    ensures i > 0 ==> rs[i].gpuOff == rs[i - 1].gpuOff + rs[i - 1].gpuIn
    ensures i > 0 ==> rs[i].metaStart == rs[i - 1].metaEnd
    ensures i == |rs| - 1 ==> rs[i].cpuOff + rs[i].cpuIn == CpuBytes(s.resmap, |s.resmap|)
    ensures i == |rs| - 1 ==> rs[i].gpuOff + rs[i].gpuIn == GpuBytes(s.resmap, |s.resmap|)
    ensures i == |rs| - 1 && TransfersFit(s) ==> (rs[i].metaEnd == |s.transfers| <==> NoneEmptyFrom(s, rs[i].metaEnd))
  {
    var n := |s.resmap|;
    var runs := Runs(s.resmap, n);
    RunsMaximal(s.resmap, n);
    assert RegionOk(s, runs[i], rs[i]);
    if i > 0 {
      assert RegionOk(s, runs[i - 1], rs[i - 1]);
      GapEmpty(s.resmap, runs[i - 1].1, runs[i].0, i - 1);
    } else {
      GapEmpty(s.resmap, 0, runs[0].0, -1);
      assert CpuBytes(s.resmap, 0) == 0 && GpuBytes(s.resmap, 0) == 0;
    }
    if i == |rs| - 1 {
      GapEmpty(s.resmap, runs[i].1, n, i);
      if TransfersFit(s) {
        AllTransfers(s, rs[i].metaEnd);
      }
    }
    hide Runs, Count, Acc, NoneEmptyFrom;
  }

  /** Between two neighbouring runs every page is absent. */
  lemma {:induction false} GapEmpty(resmap: seq<byte>, lo: nat, hi: nat, i: int)
    requires lo <= hi <= |resmap| && -1 <= i < |Runs(resmap, |resmap|)|
    requires lo == if i < 0 then 0 else Runs(resmap, |resmap|)[i].1
    requires hi <= if i + 1 == |Runs(resmap, |resmap|)| then |resmap| else Runs(resmap, |resmap|)[i + 1].0
    ensures CpuBytes(resmap, lo) == CpuBytes(resmap, hi) && GpuBytes(resmap, lo) == GpuBytes(resmap, hi)
  {
    hide Runs, Count, AllPresent;
    if lo < hi {
      GapEmpty(resmap, lo, hi - 1, i);
      if resmap[hi - 1] != ABSENT {
        var j := PageInRun(resmap, |resmap|, hi - 1);
        RunsMaximal(resmap, |resmap|);
      } else {
        AbsentMovesNothing(resmap, hi - 1);
      }
    }
  }

  /** The regions are well-formed captures for the delta writer. */
  lemma {:induction false} RegionsWellCaptured(s: Span, rs: seq<Region>)
    requires s.Valid() && RegionsOk(s, |s.resmap|, rs)
    ensures forall i :: 0 <= i < |rs| ==> InBuffers(s, rs[i])
    ensures WellCaptured(RegionCaptures(s, rs))
  {
    AllRegions(s, rs);
    hide RegionsOk, AllPacked;
  }

  /** A baseline of `caps` and a fused delta of the span's regions, as they were written. */
  ghost predicate FusedWritten(s: Span, rs: seq<Region>, version: nat, caps: seq<Capture>, dirty: nat,
                               baseFile: seq<byte>, deltaFile: seq<byte>, sorted: seq<Desc>)
    requires s.Valid() && RegionsOk(s, |s.resmap|, rs)
  {
    RegionsWellCaptured(s, rs);
    WrittenFiles(version, caps, Delta(s.base, PAGE_SIZE * |s.resmap|, dirty), RegionCaptures(s, rs), baseFile, deltaFile, sorted)
  }

  /** Restoring the fused delta over a baseline gives, at every address, the byte of the
      whole capture where its page is present and the baseline's byte elsewhere. */
  lemma {:induction false} SparseRestores(s: Span, rs: seq<Region>, version: nat, caps: seq<Capture>, dirty: nat,
                                          baseFile: seq<byte>, deltaFile: seq<byte>, sorted: seq<Desc>, a: nat)
    requires s.Valid() && RegionsOk(s, |s.resmap|, rs)
    requires FusedWritten(s, rs, version, caps, dirty, baseFile, deltaFile, sorted)
    ensures Restorable(baseFile, deltaFile, sorted)
    ensures AllSound(baseFile, sorted) && AllSound(deltaFile, RestoreRead.ParseDelta(deltaFile).value)
    ensures Packed(s.Whole()) && AllPacked(caps)
    ensures RestoredByte(baseFile, deltaFile, sorted, a) == Laid(s.Whole(), a, Overlay(caps, |caps|, a, 0))
  {
    hide RegionsOk;
    RegionsWellCaptured(s, rs);
    FullRoundTrip(version, caps, Delta(s.base, PAGE_SIZE * |s.resmap|, dirty), RegionCaptures(s, rs), baseFile, deltaFile, sorted, a);
    assert AllPacked(caps);
    hide WrittenFiles, Restorable, Span.Valid, AllPacked, Laid, RestoredByte, Overlay;
    RegionsOverlay(s, rs, a, Overlay(caps, |caps|, a, 0));
  }
}
