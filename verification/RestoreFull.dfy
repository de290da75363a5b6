/** The full restore: base ranges laid into zeroed group buffers, delta blocks over
    them, page by page. */
module RestoreFull {
  import opened Arith
  import opened Bytes
  import opened ImageFormat
  import opened PageMap
  import opened RestoreRead
  import opened RestoreGroups

  ghost predicate Present(c: Capture, p: nat)
    requires p < |c.resmap|
  {
    c.resmap[p] == ON_CPU || c.resmap[p] == ON_GPU
  }

  /** The present pages of `c` lie inside a buffer of `size` bytes at `va`. */
  ghost predicate PagesInside(c: Capture, va: nat, size: nat) {
    va <= c.base && forall p :: 0 <= p < |c.resmap| && Present(c, p) ==>
      c.base - va + PAGE_SIZE * p + PAGE_SIZE <= size
  }

  /** Nothing outside the file, the sections or the buffer is touched. */
  ghost predicate CanAssemble(file: seq<byte>, d: Desc, va: nat, size: nat) {
    && SectionsReadable(file, d) && d.resmapSize == d.numPages
    && Packed(ReadCapture(file, d)) && PagesInside(ReadCapture(file, d), va, size)
  }

  ghost function Laid(c: Capture, a: nat, under: byte): byte
    requires Packed(c)
  {
    match CapByte(c, a) case Some(v) => v case None => under
  }

  /** The same for the first `p` pages only. */
  ghost function LaidUpTo(c: Capture, p: nat, a: nat, under: byte): byte
    requires Packed(c)
  {
    if a < c.base + PAGE_SIZE * p then Laid(c, a, under) else under
  }

  /** A whole page brought into the buffer, or left out when absent. */
  lemma {:induction false} PageLaid(c: Capture, p: nat, a: nat, under: byte)
    requires Packed(c) && p < |c.resmap|
    ensures LaidUpTo(c, p + 1, a, under)
         == if c.base + PAGE_SIZE * p <= a < c.base + PAGE_SIZE * (p + 1) && PageByte(c, p, a - c.base - PAGE_SIZE * p).Some?
            then PageByte(c, p, a - c.base - PAGE_SIZE * p).value
            else LaidUpTo(c, p, a, under)
  {
    if c.base + PAGE_SIZE * p <= a < c.base + PAGE_SIZE * (p + 1) {
      CapByteAt(c, p, a - c.base - PAGE_SIZE * p);
    }
    hide CapByte, PageByte;
  }

  ghost predicate PageFits(c: Capture, p: nat, va: nat, size: nat)
    requires p < |c.resmap| && va <= c.base
  {
    Present(c, p) ==> c.base - va + PAGE_SIZE * p + PAGE_SIZE <= size
  }

  /** Bring one page into the buffer, advancing the offset of its section. */
  method LayPage(c: Capture, buf: array<byte>, va: nat, p: nat, cpuOff0: nat, gpuOff0: nat)
    returns (ok: bool, cpuOff: nat, gpuOff: nat)
    requires va <= c.base && p < |c.resmap|
    requires cpuOff0 == PAGE_SIZE * Count(c.resmap, ON_CPU, p) <= |c.cpu|
    requires gpuOff0 == PAGE_SIZE * Count(c.resmap, ON_GPU, p) <= |c.gpu|
    modifies buf
    ensures !ok ==> !Packed(c) || !PageFits(c, p, va, buf.Length)
    ensures ok ==> PageFits(c, p, va, buf.Length)
    ensures ok ==> cpuOff == PAGE_SIZE * Count(c.resmap, ON_CPU, p + 1) <= |c.cpu|
    ensures ok ==> gpuOff == PAGE_SIZE * Count(c.resmap, ON_GPU, p + 1) <= |c.gpu|
    ensures ok && Packed(c) ==> forall x :: 0 <= x < buf.Length ==>
              var o := va + x - c.base - PAGE_SIZE * p;
              buf[x] == if 0 <= o < PAGE_SIZE && PageByte(c, p, o).Some? then PageByte(c, p, o).value else old(buf[x])
  {
    ok, cpuOff, gpuOff := true, cpuOff0, gpuOff0;
    var dst := c.base - va + PAGE_SIZE * p;
    Overruns(c, p);
    if c.resmap[p] == ON_CPU {
      if cpuOff + PAGE_SIZE > |c.cpu| || dst + PAGE_SIZE > buf.Length { ok := false; return; }
      Memcpy(buf, dst, c.cpu[cpuOff..cpuOff + PAGE_SIZE]);
      cpuOff := cpuOff + PAGE_SIZE;
    } else if c.resmap[p] == ON_GPU {
      if gpuOff + PAGE_SIZE > |c.gpu| || dst + PAGE_SIZE > buf.Length { ok := false; return; }
      Memcpy(buf, dst, c.gpu[gpuOff..gpuOff + PAGE_SIZE]);
      gpuOff := gpuOff + PAGE_SIZE;
    }
    hide Packed;
  }

  /** Every page below `p` that is present has been brought in, nothing else changed. */
  ghost predicate LaidPages(c: Capture, p: nat, va: nat, was: seq<byte>, now: seq<byte>)
    requires Packed(c)
  {
    |now| == |was| && forall x :: 0 <= x < |was| ==> now[x] == LaidUpTo(c, p, va + x, was[x])
  }

  /** Walk the residency map, taking each page from the section it is packed in. */
  method LayPages(c: Capture, buf: array<byte>, va: nat) returns (ok: bool)
    requires va <= c.base
    modifies buf
    ensures ok <==> Packed(c) && PagesInside(c, va, buf.Length)
    ensures ok ==> LaidPages(c, |c.resmap|, va, old(buf[..]), buf[..])
  {
    hide PageByte, Count, LaidUpTo;
    var cpuOff, gpuOff := 0, 0;
    ghost var was := buf[..];
    NoneCounted(c);
    for p := 0 to |c.resmap|
      invariant cpuOff == PAGE_SIZE * Count(c.resmap, ON_CPU, p) <= |c.cpu|
      invariant gpuOff == PAGE_SIZE * Count(c.resmap, ON_GPU, p) <= |c.gpu|
      invariant forall q :: 0 <= q < p ==> PageFits(c, q, va, buf.Length)
      invariant Packed(c) ==> LaidPages(c, p, va, was, buf[..])
    {
      hide PageFits, Packed;
      ghost var before := buf[..];
      var fits;
      fits, cpuOff, gpuOff := LayPage(c, buf, va, p, cpuOff, gpuOff);
      if !fits {
        NotInside(c, p, va, buf.Length);
        return false;
      }
      if Packed(c) {
        LaidNext(c, p, va, was, before, buf[..]);
      }
    }
    AllInside(c, va, buf.Length);
    ok := true;
  }

  lemma {:induction false} AllInside(c: Capture, va: nat, size: nat)
    requires va <= c.base && forall q :: 0 <= q < |c.resmap| ==> PageFits(c, q, va, size)
    ensures PagesInside(c, va, size)
  {
    forall p | 0 <= p < |c.resmap| && Present(c, p) ensures c.base - va + PAGE_SIZE * p + PAGE_SIZE <= size {
      assert PageFits(c, p, va, size);
    }
  }

  lemma {:induction false} NotInside(c: Capture, p: nat, va: nat, size: nat)
    requires va <= c.base && p < |c.resmap| && (!Packed(c) || !PageFits(c, p, va, size))
    ensures !(Packed(c) && PagesInside(c, va, size))
  {
  }

  lemma {:induction false} LaidNext(c: Capture, p: nat, va: nat, was: seq<byte>, before: seq<byte>, now: seq<byte>)
    requires Packed(c) && p < |c.resmap| && LaidPages(c, p, va, was, before) && |now| == |before|
    requires forall x :: 0 <= x < |now| ==>
               var o := va + x - c.base - PAGE_SIZE * p;
               now[x] == if 0 <= o < PAGE_SIZE && PageByte(c, p, o).Some? then PageByte(c, p, o).value else before[x]
    ensures LaidPages(c, p + 1, va, was, now)
  {
    hide PageByte, LaidUpTo, Packed;
    forall x | 0 <= x < |was| ensures now[x] == LaidUpTo(c, p + 1, va + x, was[x]) {
      PageLaid(c, p, va + x, was[x]);
      assert before[x] == LaidUpTo(c, p, va + x, was[x]);
    }
  }

  method AssembleData(file: seq<byte>, d: Desc, buf: array<byte>, va: nat) returns (r: Result<()>)
    requires va <= d.baseVa
    modifies buf
    ensures r.Ok? <==> CanAssemble(file, d, va, buf.Length)
    ensures r.Ok? ==> forall x :: 0 <= x < buf.Length ==> buf[x] == Laid(ReadCapture(file, d), va + x, old(buf[x]))
  {
    if !SectionsReadable(file, d) { return Err(ShortRead); }
    if d.resmapSize != d.numPages { return Err(Undefined); }
    var c := ReadCapture(file, d);
    hide SectionsReadable, ReadCapture, Packed, PagesInside;
    ghost var was := buf[..];
    var ok := LayPages(c, buf, va);
    if !ok { return Err(Undefined); }
    forall x | 0 <= x < buf.Length ensures buf[x] == Laid(c, va + x, was[x]) {
      AllPagesLaid(c, va + x, was[x]);
      assert buf[..][x] == LaidUpTo(c, |c.resmap|, va + x, was[x]);
    }
    hide LaidUpTo, Laid, LaidPages;
    r := Ok(());
  }

  lemma {:induction false} NoneCounted(c: Capture)
    ensures Count(c.resmap, ON_CPU, 0) == 0 && Count(c.resmap, ON_GPU, 0) == 0
    ensures Packed(c) ==> forall va, s :: LaidPages(c, 0, va, s, s)
  {
  }

  lemma {:induction false} AllPagesLaid(c: Capture, a: nat, under: byte)
    requires Packed(c)
    ensures LaidUpTo(c, |c.resmap|, a, under) == Laid(c, a, under)
  {
  }

  /** A page past the end of its section shows the sections too short. */
  lemma {:induction false} Overruns(c: Capture, p: nat)
    requires p < |c.resmap|
    ensures Packed(c) && c.resmap[p] == ON_CPU ==> PAGE_SIZE * Count(c.resmap, ON_CPU, p) + PAGE_SIZE <= |c.cpu|
    ensures Packed(c) && c.resmap[p] == ON_GPU ==> PAGE_SIZE * Count(c.resmap, ON_GPU, p) + PAGE_SIZE <= |c.gpu|
  {
    if c.resmap[p] == ON_CPU {
      CountNext(c.resmap, ON_CPU, p, |c.resmap|);
    } else if c.resmap[p] == ON_GPU {
      CountNext(c.resmap, ON_GPU, p, |c.resmap|);
    }
  }

  // ------------------------------------------------------------ group buffers

  ghost predicate Sound(file: seq<byte>, d: Desc) {
    SectionsReadable(file, d) && Packed(ReadCapture(file, d))
  }

  ghost function ReadSound(file: seq<byte>, d: Desc): (c: Capture)
    requires Sound(file, d)
    ensures Packed(c)
  {
    ReadCapture(file, d)
  }

  /** The byte at `a` after the first `n` ranges of a file are laid over `under`. */
  ghost function RangesByte(file: seq<byte>, ds: seq<Desc>, n: nat, a: nat, under: byte): byte
    requires n <= |ds| && forall i :: 0 <= i < n ==> Sound(file, ds[i])
  {
    if n == 0 then under
    else
      assert Sound(file, ds[n - 1]);
      Laid(ReadSound(file, ds[n - 1]), a, RangesByte(file, ds, n - 1, a, under))
  }

  /** One buffer per group, no two the same. */
  ghost predicate Buffers(groups: seq<Group>, bufs: seq<array<byte>>) {
    && |bufs| == |groups|
    && (forall g :: 0 <= g < |groups| ==> bufs[g].Length == groups[g].size)
    && forall g, h :: 0 <= g < h < |groups| ==> bufs[g] != bufs[h]
  }

  ghost predicate Fits(file: seq<byte>, d: Desc, g: Group) {
    CanAssemble(file, d, g.va, g.size)
  }

  /** A range whose pages lie in one group has no byte in any other. */
  lemma {:induction false} OtherGroupUntouched(c: Capture, groups: seq<Group>, g: nat, h: nat, x: nat, under: byte)
    requires Apart(groups) && g < |groups| && h < |groups| && g != h && x < groups[h].size
    requires Packed(c) && PagesInside(c, groups[g].va, groups[g].size)
    ensures Laid(c, groups[h].va + x, under) == under
  {
    var a := groups[h].va + x;
    assert g < h ==> groups[g].va + groups[g].size < groups[h].va;
    assert h < g ==> groups[h].va + groups[h].size < groups[g].va;
    if InPages(c, a) {
      PageInMap(c, a);
      assert !Present(c, PageOf(c, a));
    }
  }

  ghost function Contents(bufs: seq<array<byte>>): (m: seq<seq<byte>>)
    reads bufs
    ensures |m| == |bufs| && forall g :: 0 <= g < |bufs| ==> m[g] == bufs[g][..]
  {
    seq(|bufs|, g requires 0 <= g < |bufs| reads bufs => bufs[g][..])
  }

  /** Buffer contents in the shape of the groups. */
  ghost predicate Shaped(groups: seq<Group>, m: seq<seq<byte>>) {
    |m| == |groups| && forall g :: 0 <= g < |groups| ==> |m[g]| == groups[g].size
  }

  /** `now` is `was` with the range laid over it, in every group. */
  ghost predicate RangeLaid(file: seq<byte>, d: Desc, groups: seq<Group>, was: seq<seq<byte>>, now: seq<seq<byte>>)
    requires Sound(file, d) && Shaped(groups, was) && Shaped(groups, now)
  {
    forall h, x :: 0 <= h < |groups| && 0 <= x < groups[h].size ==>
      now[h][x] == Laid(ReadSound(file, d), groups[h].va + x, was[h][x])
  }

  ghost predicate RangesLaid(file: seq<byte>, ds: seq<Desc>, n: nat, groups: seq<Group>, was: seq<seq<byte>>, now: seq<seq<byte>>)
    requires n <= |ds| && Shaped(groups, was)
  {
    && Shaped(groups, now) && (forall i :: 0 <= i < n ==> Sound(file, ds[i]))
    && forall h, x :: 0 <= h < |groups| && 0 <= x < groups[h].size ==>
         now[h][x] == RangesByte(file, ds, n, groups[h].va + x, was[h][x])
  }

  lemma {:induction false} RangesLaidNext(file: seq<byte>, ds: seq<Desc>, n: nat, groups: seq<Group>,
                                          was: seq<seq<byte>>, mid: seq<seq<byte>>, now: seq<seq<byte>>)
    requires n < |ds| && Shaped(groups, was) && Shaped(groups, mid) && Shaped(groups, now) && Sound(file, ds[n])
    requires RangesLaid(file, ds, n, groups, was, mid) && RangeLaid(file, ds[n], groups, mid, now)
    ensures RangesLaid(file, ds, n + 1, groups, was, now)
  {
    hide Laid, Sound, ReadSound;
    assert forall i :: 0 <= i < n + 1 ==> Sound(file, ds[i]);
    forall h, x | 0 <= h < |groups| && 0 <= x < groups[h].size
      ensures now[h][x] == RangesByte(file, ds, n + 1, groups[h].va + x, was[h][x])
    {
      assert mid[h][x] == RangesByte(file, ds, n, groups[h].va + x, was[h][x]);
    }
  }

  /** Lay one range into its group's buffer; it has no byte in the other groups. */
  method ApplyRange(file: seq<byte>, d: Desc, groups: seq<Group>, bufs: seq<array<byte>>, g: nat) returns (r: Result<()>)
    requires Buffers(groups, bufs) && Apart(groups) && g < |groups| && groups[g].va <= d.baseVa
    modifies bufs[g]
    ensures Shaped(groups, old(Contents(bufs))) && Shaped(groups, Contents(bufs))
    ensures r.Ok? <==> Fits(file, d, groups[g])
    ensures r.Ok? ==> Sound(file, d) && RangeLaid(file, d, groups, old(Contents(bufs)), Contents(bufs))
  {
    ghost var was := Contents(bufs);
    r := AssembleData(file, d, bufs[g], groups[g].va);
    if r.Ok? {
      var c := ReadCapture(file, d);
      assert Packed(c) && PagesInside(c, groups[g].va, groups[g].size);
      hide Packed, PagesInside, Laid, ReadCapture, CanAssemble, Apart;
      forall h, x | 0 <= h < |groups| && 0 <= x < groups[h].size
        ensures Contents(bufs)[h][x] == Laid(c, groups[h].va + x, was[h][x])
      {
        if h != g {
          OtherGroupUntouched(c, groups, g, h, x, was[h][x]);
        }
      }
    }
  }

  ghost predicate BaseFits(base: seq<byte>, sorted: seq<Desc>, n: nat)
    requires n <= |sorted|
  {
    var gs := Groups(sorted, |sorted|);
    forall i :: 0 <= i < n ==> GroupOf(sorted, i) < |gs| && Fits(base, sorted[i], gs[GroupOf(sorted, i)])
  }

  /** The first group that holds the block whole, if any. */
  function FindGroup(groups: seq<Group>, d: Desc, from: nat := 0): (g: nat)
    requires from <= |groups|
    ensures from <= g <= |groups| && (g < |groups| ==> Holds(groups[g], d))
    ensures forall h :: from <= h < g ==> !Holds(groups[h], d)
    decreases |groups| - from
  {
    if from == |groups| || Holds(groups[from], d) then from else FindGroup(groups, d, from + 1)
  }

  ghost predicate DeltaFits(delta: seq<byte>, blocks: seq<Desc>, groups: seq<Group>, n: nat)
    requires n <= |blocks|
  {
    forall i :: 0 <= i < n ==>
      FindGroup(groups, blocks[i]) < |groups| && Fits(delta, blocks[i], groups[FindGroup(groups, blocks[i])])
  }

  method ApplyBase(base: seq<byte>, sorted: seq<Desc>, groups: seq<Group>, at: seq<nat>, bufs: seq<array<byte>>) returns (r: Result<()>)
    requires Sorted(sorted) && groups == Groups(sorted, |sorted|)
    requires |at| == |sorted| && forall i :: 0 <= i < |at| ==> at[i] == GroupOf(sorted, i)
    requires Buffers(groups, bufs) && Apart(groups)
    modifies bufs
    ensures Shaped(groups, old(Contents(bufs)))
    ensures r.Ok? <==> BaseFits(base, sorted, |sorted|)
    ensures r.Ok? ==> RangesLaid(base, sorted, |sorted|, groups, old(Contents(bufs)), Contents(bufs))
  {
    ghost var was := Contents(bufs);
    hide Fits, Apart, Sound, RangeLaid, Groups, GroupOf, Sorted, Holds;
    for i := 0 to |sorted|
      invariant BaseFits(base, sorted, i)
      invariant RangesLaid(base, sorted, i, groups, was, Contents(bufs))
    {
      hide RangesLaid, RangesByte;
      GroupHolds(sorted, |sorted|, i);
      HoldsStart(groups[at[i]], sorted[i]);
      ghost var mid := Contents(bufs);
      r := ApplyRange(base, sorted[i], groups, bufs, at[i]);
      if r.Err? { return; }
      RangesLaidNext(base, sorted, i, groups, was, mid, Contents(bufs));
    }
    r := Ok(());
  }

  lemma {:induction false} HoldsStart(g: Group, d: Desc)
    requires Holds(g, d)
    ensures g.va <= d.baseVa
  {
  }

  method ApplyDelta(delta: seq<byte>, blocks: seq<Desc>, groups: seq<Group>, bufs: seq<array<byte>>) returns (r: Result<()>)
    requires Buffers(groups, bufs) && Apart(groups)
    modifies bufs
    ensures Shaped(groups, old(Contents(bufs)))
    ensures r.Ok? <==> DeltaFits(delta, blocks, groups, |blocks|)
    ensures r.Ok? ==> RangesLaid(delta, blocks, |blocks|, groups, old(Contents(bufs)), Contents(bufs))
  {
    ghost var was := Contents(bufs);
    hide Fits, Apart, Sound, RangeLaid, Holds;
    for i := 0 to |blocks|
      invariant DeltaFits(delta, blocks, groups, i)
      invariant RangesLaid(delta, blocks, i, groups, was, Contents(bufs))
    {
      hide RangesLaid, RangesByte;
      var g := FindGroup(groups, blocks[i]);
      if g == |groups| { return Err(NotInGroup); }
      HoldsStart(groups[g], blocks[i]);
      ghost var mid := Contents(bufs);
      r := ApplyRange(delta, blocks[i], groups, bufs, g);
      if r.Err? { return; }
      RangesLaidNext(delta, blocks, i, groups, was, mid, Contents(bufs));
    }
    r := Ok(());
  }

  // -------------------------------------------------------------- whole restore

  /** When the restore succeeds. */
  ghost predicate Restorable(base: seq<byte>, delta: seq<byte>, sorted: seq<Desc>) {
    && ParseBase(base).Ok? && ParseDelta(delta).Ok?
    && |Groups(sorted, |sorted|)| <= MAX_GROUPS
    && BaseFits(base, sorted, |sorted|)
    && DeltaFits(delta, ParseDelta(delta).value, Groups(sorted, |sorted|), |ParseDelta(delta).value|)
  }

  ghost predicate AllSound(file: seq<byte>, ds: seq<Desc>) {
    forall i :: 0 <= i < |ds| ==> Sound(file, ds[i])
  }

  /** What a restore puts at address `a`. */
  ghost function RestoredByte(base: seq<byte>, delta: seq<byte>, sorted: seq<Desc>, a: nat): byte
    requires ParseDelta(delta).Ok? && AllSound(base, sorted) && AllSound(delta, ParseDelta(delta).value)
  {
    var blocks := ParseDelta(delta).value;
    RangesByte(delta, blocks, |blocks|, a, RangesByte(base, sorted, |sorted|, a, 0))
  }

  method AllocateBuffers(groups: seq<Group>) returns (bufs: seq<array<byte>>)
    ensures Buffers(groups, bufs)
    ensures forall g :: 0 <= g < |bufs| ==> fresh(bufs[g])
    ensures forall g, x :: 0 <= g < |bufs| && 0 <= x < bufs[g].Length ==> bufs[g][x] == 0
  {
    bufs := [];
    for g := 0 to |groups|
      invariant Buffers(groups[..g], bufs)
      invariant forall h :: 0 <= h < g ==> fresh(bufs[h])
      invariant forall h, x :: 0 <= h < g && 0 <= x < bufs[h].Length ==> bufs[h][x] == 0
    {
      var buf := new byte[groups[g].size](_ => 0);
      bufs := bufs + [buf];
    }
    assert groups[..|groups|] == groups;
  }

  /** Restore both images; `sorted` is what the library sort makes of the baseline's
      descriptors. */
  method RestoreFromFiles(base: seq<byte>, delta: seq<byte>, sorted: seq<Desc>) returns (r: Result<(seq<Group>, seq<array<byte>>)>)
    requires ParseBase(base).Ok? ==> SortedOf(ParseBase(base).value, sorted)
    ensures r.Ok? <==> Restorable(base, delta, sorted)
    ensures r.Ok? ==> AllSound(base, sorted) && AllSound(delta, ParseDelta(delta).value)
    ensures r.Ok? ==> r.value.0 == Groups(sorted, |sorted|) && Buffers(r.value.0, r.value.1)
    ensures r.Ok? ==> forall g, x :: 0 <= g < |r.value.0| && 0 <= x < r.value.0[g].size ==>
              r.value.1[g][x] == RestoredByte(base, delta, sorted, r.value.0[g].va + x)
  {
    hide ReadDescs, Fits, Laid, RangesByte, Groups, Apart, Sorted, BaseFits, DeltaFits, Sound;
    var header := ParseBase(base);
    if header.Err? { return Err(header.error); }
    assert Sorted(sorted);
    hide ParseBase, ParseDelta;
    var grouped := GroupRanges(sorted);
    if grouped.Err? { return Err(grouped.error); }
    var (groups, at) := grouped.value;
    GroupsApart(sorted, |sorted|);
    var bufs := AllocateBuffers(groups);
    ghost var m0 := Contents(bufs);
    var step := ApplyBase(base, sorted, groups, at, bufs);
    if step.Err? { return Err(step.error); }
    ghost var m1 := Contents(bufs);
    var blocks := ParseDelta(delta);
    if blocks.Err? { return Err(blocks.error); }
    step := ApplyDelta(delta, blocks.value, groups, bufs);
    if step.Err? { return Err(step.error); }
    BothLaid(base, delta, sorted, groups, m0, m1, Contents(bufs));
    hide RangesLaid;
    forall g, x | 0 <= g < |groups| && 0 <= x < groups[g].size
      ensures bufs[g][x] == RestoredByte(base, delta, sorted, groups[g].va + x)
    {
      assert Contents(bufs)[g][x] == bufs[g][x];
    }
    r := Ok((groups, bufs));
  }

  lemma {:induction false} BothLaid(base: seq<byte>, delta: seq<byte>, sorted: seq<Desc>, groups: seq<Group>,
                                    m0: seq<seq<byte>>, m1: seq<seq<byte>>, m2: seq<seq<byte>>)
    requires ParseDelta(delta).Ok? && Shaped(groups, m0) && Shaped(groups, m1)
    requires forall g, x :: 0 <= g < |m0| && 0 <= x < |m0[g]| ==> m0[g][x] == 0
    requires RangesLaid(base, sorted, |sorted|, groups, m0, m1)
    requires RangesLaid(delta, ParseDelta(delta).value, |ParseDelta(delta).value|, groups, m1, m2)
    ensures AllSound(base, sorted) && AllSound(delta, ParseDelta(delta).value) && Shaped(groups, m2)
    ensures forall g, x :: 0 <= g < |groups| && 0 <= x < groups[g].size ==>
              m2[g][x] == RestoredByte(base, delta, sorted, groups[g].va + x)
  {
    hide RangesByte, Sound, ParseDelta;
    forall g, x | 0 <= g < |groups| && 0 <= x < groups[g].size
      ensures m2[g][x] == RestoredByte(base, delta, sorted, groups[g].va + x)
    {
      assert m0[g][x] == 0;
      assert m1[g][x] == RangesByte(base, sorted, |sorted|, groups[g].va + x, m0[g][x]);
    }
  }
}
