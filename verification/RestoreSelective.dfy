/** Selective restore: only the pages that overlap a request are brought in, cut at the
    request's ends. It returns the slice of the full restore at the requested address. */
module RestoreSelective {
  import opened Bytes
  import opened ImageFormat
  import opened PageMap
  import opened RestoreRead
  import opened RestoreGroups
  import opened RestoreFull
  import opened RestoreRoundTrip

  datatype Request = Request(va: nat, size: nat)

  function Larger(a: nat, b: nat): nat { if a >= b then a else b }

  function Smaller(a: nat, b: nat): nat { if a <= b then a else b }

  /** Bring the part of one page that overlaps the target; `page` is its content. */
  method CopyOverlap(dst: array<byte>, target: nat, page: seq<byte>, pageVa: nat)
    modifies dst
    ensures forall x :: 0 <= x < dst.Length ==>
              dst[x] == if pageVa <= target + x < pageVa + |page| then page[target + x - pageVa] else old(dst[x])
  {
    var pageEnd, targetEnd := pageVa + |page|, target + dst.Length;
    if pageEnd <= target || pageVa >= targetEnd { return; }
    var start, end := Larger(pageVa, target), Smaller(pageEnd, targetEnd);
    Memcpy(dst, start - target, page[start - pageVa..end - pageVa]);
  }

  /** The page at the current section offsets, cut to the target. */
  method LayOverlap(c: Capture, dst: array<byte>, target: nat, p: nat, cpuOff0: nat, gpuOff0: nat)
    returns (ok: bool, cpuOff: nat, gpuOff: nat)
    requires p < |c.resmap|
    requires cpuOff0 == PAGE_SIZE * Count(c.resmap, ON_CPU, p) <= |c.cpu|
    requires gpuOff0 == PAGE_SIZE * Count(c.resmap, ON_GPU, p) <= |c.gpu|
    modifies dst
    ensures !ok ==> !Packed(c)
    ensures ok ==> cpuOff == PAGE_SIZE * Count(c.resmap, ON_CPU, p + 1) <= |c.cpu|
    ensures ok ==> gpuOff == PAGE_SIZE * Count(c.resmap, ON_GPU, p + 1) <= |c.gpu|
    ensures ok && Packed(c) ==> forall x :: 0 <= x < dst.Length ==>
              var o := target + x - c.base - PAGE_SIZE * p;
              dst[x] == if 0 <= o < PAGE_SIZE && PageByte(c, p, o).Some? then PageByte(c, p, o).value else old(dst[x])
  {
    ok, cpuOff, gpuOff := true, cpuOff0, gpuOff0;
    Overruns(c, p);
    if c.resmap[p] == ON_CPU {
      if cpuOff + PAGE_SIZE > |c.cpu| { ok := false; return; }
      CopyOverlap(dst, target, c.cpu[cpuOff..cpuOff + PAGE_SIZE], c.base + PAGE_SIZE * p);
      cpuOff := cpuOff + PAGE_SIZE;
    } else if c.resmap[p] == ON_GPU {
      if gpuOff + PAGE_SIZE > |c.gpu| { ok := false; return; }
      CopyOverlap(dst, target, c.gpu[gpuOff..gpuOff + PAGE_SIZE], c.base + PAGE_SIZE * p);
      gpuOff := gpuOff + PAGE_SIZE;
    }
    hide Packed;
  }

  ghost predicate LaidTarget(c: Capture, p: nat, target: nat, was: seq<byte>, now: seq<byte>)
    requires Packed(c)
  {
    |now| == |was| && forall x :: 0 <= x < |was| ==> now[x] == LaidUpTo(c, p, target + x, was[x])
  }

  method LayTarget(c: Capture, dst: array<byte>, target: nat) returns (ok: bool)
    modifies dst
    ensures ok <==> Packed(c)
    ensures ok ==> LaidTarget(c, |c.resmap|, target, old(dst[..]), dst[..])
  {
    hide PageByte, Count, LaidUpTo;
    var cpuOff, gpuOff := 0, 0;
    ghost var was := dst[..];
    NothingLaid(c, target, was);
    for p := 0 to |c.resmap|
      invariant cpuOff == PAGE_SIZE * Count(c.resmap, ON_CPU, p) <= |c.cpu|
      invariant gpuOff == PAGE_SIZE * Count(c.resmap, ON_GPU, p) <= |c.gpu|
      invariant Packed(c) ==> LaidTarget(c, p, target, was, dst[..])
    {
      hide Packed;
      ghost var before := dst[..];
      ok, cpuOff, gpuOff := LayOverlap(c, dst, target, p, cpuOff, gpuOff);
      if !ok { return; }
      if Packed(c) {
        TargetNext(c, p, target, was, before, dst[..]);
      }
    }
    ok := true;
  }

  lemma {:induction false} NothingLaid(c: Capture, target: nat, s: seq<byte>)
    ensures Count(c.resmap, ON_CPU, 0) == 0 && Count(c.resmap, ON_GPU, 0) == 0
    ensures Packed(c) ==> LaidTarget(c, 0, target, s, s)
  {
  }

  lemma {:induction false} TargetNext(c: Capture, p: nat, target: nat, was: seq<byte>, before: seq<byte>, now: seq<byte>)
    requires Packed(c) && p < |c.resmap| && LaidTarget(c, p, target, was, before) && |now| == |before|
    requires forall x :: 0 <= x < |now| ==>
               var o := target + x - c.base - PAGE_SIZE * p;
               now[x] == if 0 <= o < PAGE_SIZE && PageByte(c, p, o).Some? then PageByte(c, p, o).value else before[x]
    ensures LaidTarget(c, p + 1, target, was, now)
  {
    hide PageByte, LaidUpTo, Packed;
    forall x | 0 <= x < |was| ensures now[x] == LaidUpTo(c, p + 1, target + x, was[x]) {
      PageLaid(c, p, target + x, was[x]);
      assert before[x] == LaidUpTo(c, p, target + x, was[x]);
    }
  }

  method AssembleSelective(file: seq<byte>, d: Desc, dst: array<byte>, target: nat) returns (r: Result<()>)
    modifies dst
    ensures r.Ok? <==> Sound(file, d) && d.resmapSize == d.numPages
    ensures r.Ok? ==> forall x :: 0 <= x < dst.Length ==> dst[x] == Laid(ReadSound(file, d), target + x, old(dst[x]))
  {
    if !SectionsReadable(file, d) { return Err(ShortRead); }
    if d.resmapSize != d.numPages { return Err(Undefined); }
    var c := ReadCapture(file, d);
    ghost var was := dst[..];
    hide Packed;
    var ok := LayTarget(c, dst, target);
    if !ok { return Err(Undefined); }
    assert c == ReadSound(file, d);
    hide SectionsReadable, ReadCapture;
    forall x | 0 <= x < dst.Length ensures dst[x] == Laid(c, target + x, was[x]) {
      AllPagesLaid(c, target + x, was[x]);
      assert dst[..][x] == LaidUpTo(c, |c.resmap|, target + x, was[x]);
    }
    hide LaidUpTo, Laid, LaidTarget;
    r := Ok(());
  }

  /** The range, by its length, shares a byte with the request. */
  predicate Overlaps(d: Desc, q: Request) {
    !(d.baseVa + d.length <= q.va || d.baseVa >= q.va + q.size)
  }

  ghost predicate Usable(file: seq<byte>, d: Desc, q: Request) {
    Overlaps(d, q) ==> Sound(file, d) && d.resmapSize == d.numPages
  }

  /** The byte at `a` for request `q` after the first `n` ranges of a file. */
  ghost function SelectedByte(file: seq<byte>, ds: seq<Desc>, n: nat, q: Request, a: nat, under: byte): byte
    requires n <= |ds| && forall i :: 0 <= i < n ==> Usable(file, ds[i], q)
  {
    if n == 0 then under
    else
      assert Usable(file, ds[n - 1], q);
      var below := SelectedByte(file, ds, n - 1, q, a, under);
      if Overlaps(ds[n - 1], q) then Laid(ReadSound(file, ds[n - 1]), a, below) else below
  }

  /** One buffer per request, no two the same. */
  ghost predicate Targets(qs: seq<Request>, bufs: seq<array<byte>>) {
    && |bufs| == |qs| && (forall k :: 0 <= k < |qs| ==> bufs[k].Length == qs[k].size)
    && forall j, k :: 0 <= j < k < |qs| ==> bufs[j] != bufs[k]
  }

  ghost predicate UsableUpTo(file: seq<byte>, ds: seq<Desc>, n: nat, q: Request)
    requires n <= |ds|
  {
    forall i :: 0 <= i < n ==> Usable(file, ds[i], q)
  }

  /** Request `q`'s buffer after the first `n` ranges of a file. */
  ghost predicate Selected(file: seq<byte>, ds: seq<Desc>, n: nat, q: Request, was: seq<byte>, now: seq<byte>)
    requires n <= |ds|
  {
    && UsableUpTo(file, ds, n, q) && |was| == |now| == q.size
    && forall x :: 0 <= x < q.size ==> now[x] == SelectedByte(file, ds, n, q, q.va + x, was[x])
  }

  /** One range over one request, when they overlap. */
  method SelectOne(file: seq<byte>, ds: seq<Desc>, i: nat, q: Request, dst: array<byte>, ghost was: seq<byte>) returns (r: Result<()>)
    requires i < |ds| && dst.Length == q.size && Selected(file, ds, i, q, was, dst[..])
    modifies dst
    ensures r.Ok? <==> Usable(file, ds[i], q)
    ensures r.Ok? ==> Selected(file, ds, i + 1, q, was, dst[..])
  {
    hide Sound, Laid, ReadSound;
    ghost var mid := dst[..];
    if !Overlaps(ds[i], q) {
      SelectNext(file, ds, i, q, was, mid, mid);
      return Ok(());
    }
    r := AssembleSelective(file, ds[i], dst, q.va);
    if r.Ok? {
      SelectNext(file, ds, i, q, was, mid, dst[..]);
    }
  }

  lemma {:induction false} SelectNext(file: seq<byte>, ds: seq<Desc>, i: nat, q: Request, was: seq<byte>, mid: seq<byte>, now: seq<byte>)
    requires i < |ds| && Selected(file, ds, i, q, was, mid) && |now| == |mid| && Usable(file, ds[i], q)
    requires if Overlaps(ds[i], q)
             then forall x :: 0 <= x < q.size ==> now[x] == Laid(ReadSound(file, ds[i]), q.va + x, mid[x])
             else now == mid
    ensures Selected(file, ds, i + 1, q, was, now)
  {
    hide Sound, Laid, ReadSound, Overlaps, Usable;
    assert UsableUpTo(file, ds, i + 1, q);
    forall x | 0 <= x < q.size ensures now[x] == SelectedByte(file, ds, i + 1, q, q.va + x, was[x]) {
      assert mid[x] == SelectedByte(file, ds, i, q, q.va + x, was[x]);
    }
  }

  /** Each request's buffer after the ranges its count says. */
  ghost predicate AllSelected(file: seq<byte>, ds: seq<Desc>, i: nat, done: nat, qs: seq<Request>, was: seq<seq<byte>>, now: seq<seq<byte>>)
    requires i <= |ds| && (done > 0 ==> i < |ds|)
  {
    |was| == |now| == |qs| && forall j :: 0 <= j < |qs| ==>
      Selected(file, ds, if j < done then i + 1 else i, qs[j], was[j], now[j])
  }

  /** One range over all requests. */
  method SelectRange(file: seq<byte>, ds: seq<Desc>, i: nat, qs: seq<Request>, bufs: seq<array<byte>>, ghost was: seq<seq<byte>>)
    returns (r: Result<()>)
    requires i < |ds| && Targets(qs, bufs) && AllSelected(file, ds, i, 0, qs, was, Contents(bufs))
    modifies bufs
    ensures r.Ok? ==> AllSelected(file, ds, i + 1, 0, qs, was, Contents(bufs))
    ensures r.Err? ==> exists k :: 0 <= k < |qs| && !UsableUpTo(file, ds, |ds|, qs[k])
  {
    hide Selected, Usable;
    for k := 0 to |qs|
      invariant AllSelected(file, ds, i, k, qs, was, Contents(bufs))
    {
      r := SelectOne(file, ds, i, qs[k], bufs[k], was[k]);
      if r.Err? {
        assert !UsableUpTo(file, ds, |ds|, qs[k]);
        return;
      }
    }
    r := Ok(());
  }

  /** One image over all requests: for every range, every request it overlaps. */
  method SelectRanges(file: seq<byte>, ds: seq<Desc>, qs: seq<Request>, bufs: seq<array<byte>>) returns (r: Result<()>)
    requires Targets(qs, bufs)
    modifies bufs
    ensures r.Ok? <==> forall k :: 0 <= k < |qs| ==> UsableUpTo(file, ds, |ds|, qs[k])
    ensures r.Ok? ==> forall k :: 0 <= k < |qs| ==> Selected(file, ds, |ds|, qs[k], old(bufs[k][..]), bufs[k][..])
  {
    ghost var was := Contents(bufs);
    NothingSelected(file, ds, qs, was);
    hide SelectedByte, Usable;
    for i := 0 to |ds|
      invariant AllSelected(file, ds, i, 0, qs, was, Contents(bufs))
    {
      hide Selected, AllSelected, Targets;
      r := SelectRange(file, ds, i, qs, bufs, was);
      if r.Err? { return; }
    }
    assert forall k :: 0 <= k < |qs| ==> Selected(file, ds, |ds|, qs[k], was[k], Contents(bufs)[k]);
    r := Ok(());
  }

  lemma {:induction false} NothingSelected(file: seq<byte>, ds: seq<Desc>, qs: seq<Request>, m: seq<seq<byte>>)
    requires |m| == |qs| && forall k :: 0 <= k < |qs| ==> |m[k]| == qs[k].size
    ensures forall k :: 0 <= k < |qs| ==> UsableUpTo(file, ds, 0, qs[k]) && Selected(file, ds, 0, qs[k], m[k], m[k])
  {
  }

  method AllocateTargets(qs: seq<Request>) returns (bufs: seq<array<byte>>)
    ensures Targets(qs, bufs)
    ensures forall k :: 0 <= k < |bufs| ==> fresh(bufs[k])
    ensures forall k, x :: 0 <= k < |bufs| && 0 <= x < bufs[k].Length ==> bufs[k][x] == 0
  {
    bufs := [];
    for k := 0 to |qs|
      invariant Targets(qs[..k], bufs)
      invariant forall j :: 0 <= j < k ==> fresh(bufs[j])
      invariant forall j, x :: 0 <= j < k && 0 <= x < bufs[j].Length ==> bufs[j][x] == 0
    {
      var buf := new byte[qs[k].size](_ => 0);
      bufs := bufs + [buf];
    }
    assert qs[..|qs|] == qs;
  }

  ghost predicate AllUsable(file: seq<byte>, parsed: Result<seq<Desc>>, qs: seq<Request>) {
    parsed.Ok? && forall k :: 0 <= k < |qs| ==> UsableUpTo(file, parsed.value, |parsed.value|, qs[k])
  }

  /** The byte at `a` in the buffer of request `q`. */
  ghost function RequestedByte(base: seq<byte>, delta: seq<byte>, q: Request, a: nat): byte
    requires AllUsable(base, ParseBase(base), [q]) && AllUsable(delta, ParseDelta(delta), [q])
  {
    var ds, blocks := ParseBase(base).value, ParseDelta(delta).value;
    assert UsableUpTo(base, ds, |ds|, [q][0]) && UsableUpTo(delta, blocks, |blocks|, [q][0]);
    SelectedByte(delta, blocks, |blocks|, q, a, SelectedByte(base, ds, |ds|, q, a, 0))
  }

  /** The files are not even opened when nothing is asked for. */
  method RestoreSelected(base: seq<byte>, delta: seq<byte>, qs: seq<Request>) returns (r: Result<seq<array<byte>>>)
    ensures r.Ok? <==> qs == [] || (AllUsable(base, ParseBase(base), qs) && AllUsable(delta, ParseDelta(delta), qs))
    ensures r.Ok? ==> Targets(qs, r.value)
    ensures r.Ok? ==> forall k :: 0 <= k < |qs| ==>
              && AllUsable(base, ParseBase(base), [qs[k]]) && AllUsable(delta, ParseDelta(delta), [qs[k]])
              && forall x :: 0 <= x < qs[k].size ==> r.value[k][x] == RequestedByte(base, delta, qs[k], qs[k].va + x)
  {
    if qs == [] { return Ok([]); }
    hide ParseBase, ParseDelta, Selected, UsableUpTo;
    var bufs := AllocateTargets(qs);
    ghost var m0 := Contents(bufs);
    var ds := ParseBase(base);
    if ds.Err? { return Err(ds.error); }
    var step := SelectRanges(base, ds.value, qs, bufs);
    if step.Err? { return Err(step.error); }
    ghost var m1 := Contents(bufs);
    var blocks := ParseDelta(delta);
    if blocks.Err? { return Err(blocks.error); }
    step := SelectRanges(delta, blocks.value, qs, bufs);
    if step.Err? { return Err(step.error); }
    forall k | 0 <= k < |qs|
      ensures && AllUsable(base, ParseBase(base), [qs[k]]) && AllUsable(delta, ParseDelta(delta), [qs[k]])
              && forall x :: 0 <= x < qs[k].size ==> bufs[k][x] == RequestedByte(base, delta, qs[k], qs[k].va + x)
    {
      BothSelected(base, delta, qs[k], m0[k], m1[k], bufs[k][..]);
    }
    r := Ok(bufs);
  }

  lemma {:induction false} BothSelected(base: seq<byte>, delta: seq<byte>, q: Request, m0: seq<byte>, m1: seq<byte>, m2: seq<byte>)
    requires ParseBase(base).Ok? && ParseDelta(delta).Ok?
    requires Selected(base, ParseBase(base).value, |ParseBase(base).value|, q, m0, m1)
    requires Selected(delta, ParseDelta(delta).value, |ParseDelta(delta).value|, q, m1, m2)
    requires forall x :: 0 <= x < |m0| ==> m0[x] == 0
    ensures AllUsable(base, ParseBase(base), [q]) && AllUsable(delta, ParseDelta(delta), [q]) && |m2| == q.size
    ensures forall x :: 0 <= x < q.size ==> m2[x] == RequestedByte(base, delta, q, q.va + x)
  {
    hide ParseBase, ParseDelta, SelectedByte, Usable;
  }

  // ------------------------------------------------------------ slice of the full

  /** Every descriptor's length is that of its pages. */
  ghost predicate LengthsMatch(ds: seq<Desc>) {
    forall i :: 0 <= i < |ds| ==> ds[i].length == PAGE_SIZE * ds[i].numPages && ds[i].resmapSize == ds[i].numPages
  }

  /** No two descriptors share an address. */
  ghost predicate DescsDisjoint(ds: seq<Desc>) {
    forall i, j, a :: 0 <= i < |ds| && 0 <= j < |ds| && InRange(ds[i], a) && InRange(ds[j], a) ==> ds[i] == ds[j]
  }

  lemma {:induction false} SelectedIsLaid(file: seq<byte>, ds: seq<Desc>, n: nat, q: Request, a: nat, under: byte)
    requires AllSound(file, ds) && LengthsMatch(ds) && n <= |ds| && q.va <= a < q.va + q.size
    ensures SelectedByte(file, ds, n, q, a, under) == RangesByte(file, ds, n, a, under)
  {
    hide Packed, CapByte, SectionsReadable;
    if n > 0 {
      SelectedIsLaid(file, ds, n - 1, q, a, under);
      assert Sound(file, ds[n - 1]);
      if !Overlaps(ds[n - 1], q) {
        OutsideNone(ReadSound(file, ds[n - 1]), a);
      }
    }
  }

  /** Two arrangements of the same disjoint ranges lay down the same bytes. */
  lemma {:induction false} OrderIrrelevant(file: seq<byte>, ds: seq<Desc>, sorted: seq<Desc>, a: nat, under: byte)
    requires AllSound(file, ds) && AllSound(file, sorted) && multiset(ds) == multiset(sorted)
    requires LengthsMatch(ds) && DescsDisjoint(ds)
    ensures RangesByte(file, ds, |ds|, a, under) == RangesByte(file, sorted, |sorted|, a, under)
  {
    hide Packed, CapByte, Sound, RangesByte, Laid;
    if i :| 0 <= i < |ds| && InRange(ds[i], a) {
      var c := ReadSound(file, ds[i]);
      SameRange(file, ds, sorted, i, a);
      LaidOnce(file, ds, |ds|, c, a, under);
      LaidOnce(file, sorted, |sorted|, c, a, under);
    } else {
      var none := Capture(0, 0, [], [], [], []);
      EmptyPacked();
      NoRange(file, ds, sorted, a);
      LaidOnce(file, ds, |ds|, none, a, under);
      LaidOnce(file, sorted, |sorted|, none, a, under);
    }
  }

  lemma {:induction false} InPagesIsInRange(file: seq<byte>, d: Desc, a: int)
    requires Sound(file, d) && d.length == PAGE_SIZE * d.numPages && d.resmapSize == d.numPages
    ensures InPages(ReadSound(file, d), a) <==> InRange(d, a)
  {
  }

  lemma {:induction false} SameRange(file: seq<byte>, ds: seq<Desc>, sorted: seq<Desc>, i: nat, a: nat)
    requires AllSound(file, ds) && AllSound(file, sorted) && multiset(ds) == multiset(sorted)
    requires LengthsMatch(ds) && DescsDisjoint(ds) && i < |ds| && InRange(ds[i], a)
    ensures OnlyCapture(file, ds, |ds|, ReadSound(file, ds[i]), a) && OnlyCapture(file, sorted, |sorted|, ReadSound(file, ds[i]), a)
    ensures exists j :: 0 <= j < |ds| && InPages(ReadSound(file, ds[j]), a)
    ensures exists j :: 0 <= j < |sorted| && InPages(ReadSound(file, sorted[j]), a)
  {
    hide Sound, ReadSound, InPages;
    forall j | 0 <= j < |ds| ensures InPages(ReadSound(file, ds[j]), a) ==> ds[j] == ds[i] {
      InPagesIsInRange(file, ds[j], a);
    }
    forall j | 0 <= j < |sorted| ensures InPages(ReadSound(file, sorted[j]), a) ==> sorted[j] == ds[i] {
      var k := SortedFrom(ds, sorted, j);
      InPagesIsInRange(file, ds[k], a);
    }
    InPagesIsInRange(file, ds[i], a);
    var j := SortedFrom(sorted, ds, i);
    assert InPages(ReadSound(file, sorted[j]), a);
  }

  lemma {:induction false} NoRange(file: seq<byte>, ds: seq<Desc>, sorted: seq<Desc>, a: nat)
    requires AllSound(file, ds) && AllSound(file, sorted) && multiset(ds) == multiset(sorted)
    requires LengthsMatch(ds) && forall i :: 0 <= i < |ds| ==> !InRange(ds[i], a)
    ensures forall j :: 0 <= j < |ds| ==> !InPages(ReadSound(file, ds[j]), a)
    ensures forall j :: 0 <= j < |sorted| ==> !InPages(ReadSound(file, sorted[j]), a)
  {
    hide Sound, ReadSound, InPages, InRange;
    forall j | 0 <= j < |ds| ensures !InPages(ReadSound(file, ds[j]), a) {
      InPagesIsInRange(file, ds[j], a);
    }
    forall j | 0 <= j < |sorted| ensures !InPages(ReadSound(file, sorted[j]), a) {
      var k := SortedFrom(ds, sorted, j);
      InPagesIsInRange(file, ds[k], a);
    }
  }

  /** When the full restore succeeds the selective one does, and each requested byte is
      the byte the full restore has at that address; page-aligned or not. */
  lemma {:induction false} SelectiveIsSlice(base: seq<byte>, delta: seq<byte>, sorted: seq<Desc>, q: Request, a: nat)
    requires Restorable(base, delta, sorted) && AllSound(base, sorted) && AllSound(delta, ParseDelta(delta).value)
    requires SortedOf(ParseBase(base).value, sorted)
    requires LengthsMatch(ParseBase(base).value) && DescsDisjoint(ParseBase(base).value) && LengthsMatch(ParseDelta(delta).value)
    requires q.va <= a < q.va + q.size
    ensures AllUsable(base, ParseBase(base), [q]) && AllUsable(delta, ParseDelta(delta), [q])
    ensures RequestedByte(base, delta, q, a) == RestoredByte(base, delta, sorted, a)
  {
    hide ParseBase, ParseDelta, BaseFits, DeltaFits, Sound, SelectedByte, RangesByte, Sorted, DescsDisjoint;
    var ds, blocks := ParseBase(base).value, ParseDelta(delta).value;
    forall i | 0 <= i < |ds| ensures Sound(base, ds[i]) {
      var j := SortedFrom(sorted, ds, i);
    }
    SelectedIsLaid(base, ds, |ds|, q, a, 0);
    OrderIrrelevant(base, ds, sorted, a, 0);
    SelectedIsLaid(delta, blocks, |blocks|, q, a, RangesByte(base, sorted, |sorted|, a, 0));
  }

  /** Outside every group a restore has nothing. */
  lemma {:induction false} ZeroOutsideGroups(base: seq<byte>, delta: seq<byte>, sorted: seq<Desc>, a: nat)
    requires Restorable(base, delta, sorted) && AllSound(base, sorted) && AllSound(delta, ParseDelta(delta).value)
    requires forall g :: 0 <= g < |Groups(sorted, |sorted|)| ==> !InGroup(Groups(sorted, |sorted|)[g], a)
    ensures RestoredByte(base, delta, sorted, a) == 0
  {
    hide ParseBase, ParseDelta, Groups, Sound, RangesByte, GroupOf;
    var gs, blocks := Groups(sorted, |sorted|), ParseDelta(delta).value;
    forall i, u: byte | 0 <= i < |sorted| ensures Laid(ReadSound(base, sorted[i]), a, u) == u {
      NotInside(base, sorted[i], gs[GroupOf(sorted, i)], a, u);
    }
    NothingAt(base, sorted, |sorted|, a, 0);
    forall i, u: byte | 0 <= i < |blocks| ensures Laid(ReadSound(delta, blocks[i]), a, u) == u {
      NotInside(delta, blocks[i], gs[FindGroup(gs, blocks[i])], a, u);
    }
    NothingAt(delta, blocks, |blocks|, a, 0);
  }

  lemma {:induction false} NotInside(file: seq<byte>, d: Desc, g: Group, a: nat, under: byte)
    requires Sound(file, d) && Fits(file, d, g) && !InGroup(g, a)
    ensures Laid(ReadSound(file, d), a, under) == under
  {
    var c := ReadSound(file, d);
    if InPages(c, a) {
      PageInMap(c, a);
      assert !Present(c, PageOf(c, a));
    }
  }

  lemma {:induction false} NothingAt(file: seq<byte>, ds: seq<Desc>, n: nat, a: nat, under: byte)
    requires AllSound(file, ds) && n <= |ds|
    requires forall i, u: byte :: 0 <= i < |ds| ==> Laid(ReadSound(file, ds[i]), a, u) == u
    ensures RangesByte(file, ds, n, a, under) == under
  {
    hide Laid, Sound;
    if n > 0 {
      NothingAt(file, ds, n - 1, a, under);
    }
  }

  /** A selective restore that the full one would match returns zero outside every group. */
  lemma {:induction false} SelectiveZero(base: seq<byte>, delta: seq<byte>, sorted: seq<Desc>, q: Request, a: nat)
    requires Restorable(base, delta, sorted) && AllSound(base, sorted) && AllSound(delta, ParseDelta(delta).value)
    requires SortedOf(ParseBase(base).value, sorted)
    requires LengthsMatch(ParseBase(base).value) && DescsDisjoint(ParseBase(base).value) && LengthsMatch(ParseDelta(delta).value)
    requires q.va <= a < q.va + q.size
    requires forall g :: 0 <= g < |Groups(sorted, |sorted|)| ==> !InGroup(Groups(sorted, |sorted|)[g], a)
    ensures AllUsable(base, ParseBase(base), [q]) && AllUsable(delta, ParseDelta(delta), [q])
    ensures RequestedByte(base, delta, q, a) == 0
  {
    hide RequestedByte, RestoredByte, AllUsable, LengthsMatch, DescsDisjoint;
    SelectiveIsSlice(base, delta, sorted, q, a);
    ZeroOutsideGroups(base, delta, sorted, a);
  }
}
