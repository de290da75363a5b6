/** The agent's list of dirty ranges: dirty 64 KB pages rounded down to 2 MB blocks,
    sorted, made unique, kept when inside an allocation, and merged into runs. */
module DirtyBlocks {
  import opened BaselineV4

  const MAX_RANGES: nat := 8187

  predicate Ascending(s: seq<nat>) {
    forall i, j :: 0 <= i < j < |s| ==> s[i] <= s[j]
  }

  predicate Strict(s: seq<nat>) {
    forall i, j :: 0 <= i < j < |s| ==> s[i] < s[j]
  }

  predicate AllBlocks(s: seq<nat>) {
    forall i :: 0 <= i < |s| ==> s[i] % CHUNK == 0
  }

  function BlockOf(a: nat): (b: nat)
    ensures b % CHUNK == 0 && b <= a < b + CHUNK
  {
    a - a % CHUNK
  }

  /** The block at `va` lies inside one of the recorded allocations. */
  predicate InAllocs(allocs: seq<Range>, va: nat) {
    exists k :: 0 <= k < |allocs| && allocs[k].va <= va && va + CHUNK <= allocs[k].va + allocs[k].length
  }

  method FindAlloc(allocs: seq<Range>, va: nat) returns (inRange: bool)
    ensures inRange <==> InAllocs(allocs, va)
  {
    inRange := false;
    var k: nat := 0;
    while k < |allocs| && !inRange
      invariant k <= |allocs|
      invariant inRange ==> InAllocs(allocs, va)
      invariant !inRange ==> forall j :: 0 <= j < k ==> !(allocs[j].va <= va && va + CHUNK <= allocs[j].va + allocs[j].length)
    {
      inRange := allocs[k].va <= va && va + CHUNK <= allocs[k].va + allocs[k].length;
      k := k + 1;
    }
  }

  // ------------------------------------------------------------- unique blocks

  function Uniq(s: seq<nat>): (u: seq<nat>)
    ensures s != [] ==> u != [] && u[|u| - 1] == s[|s| - 1]
    ensures |u| <= |s|
  {
    if s == [] then []
    else
      var u := Uniq(s[..|s| - 1]);
      if |s| == 1 || s[|s| - 1] != u[|u| - 1] then u + [s[|s| - 1]] else u
  }

  lemma {:induction false} UniqStrict(s: seq<nat>)
    requires Ascending(s)
    ensures Strict(Uniq(s)) && forall x :: x in Uniq(s) <==> x in s
  {
    if s != [] {
      var rest, v := s[..|s| - 1], s[|s| - 1];
      assert Ascending(rest) && (rest != [] ==> rest[|rest| - 1] <= v);
      assert Uniq(s) == if rest == [] || v != Uniq(rest)[|Uniq(rest)| - 1] then Uniq(rest) + [v] else Uniq(rest);
      UniqStrict(rest);
      hide Uniq, Ascending;
      assert s == rest + [v];
      if rest != [] {
        LastIsLargest(Uniq(rest), rest[|rest| - 1]);
      }
    }
  }

  lemma {:induction false} LastIsLargest(u: seq<nat>, top: nat)
    requires Strict(u) && u != [] && u[|u| - 1] == top
    ensures forall i :: 0 <= i < |u| ==> u[i] <= top
  {
  }

  lemma {:induction false} UniqStep(s: seq<nat>, i: nat)
    requires i < |s|
    ensures var u := Uniq(s[..i]);
            (i > 0 ==> u != []) && Uniq(s[..i + 1]) == if i == 0 || s[i] != u[|u| - 1] then u + [s[i]] else u
  {
    assert s[..i + 1][..i] == s[..i];
  }

  method Dedup(a: array<nat>) returns (n: nat)
    modifies a
    ensures n <= a.Length && a[..n] == Uniq(old(a[..]))
  {
    n := 0;
    ghost var was, u := a[..], [];
    for i := 0 to a.Length
      invariant n <= i && n == |u| && u == Uniq(was[..i])
      invariant forall k :: 0 <= k < n ==> a[k] == u[k]
      invariant forall k :: i <= k < a.Length ==> a[k] == was[k]
    {
      UniqStep(was, i);
      hide Uniq;
      if i == 0 || a[i] != a[n - 1] {
        a[n] := a[i];
        n := n + 1;
        u := u + [was[i]];
      }
    }
    assert was[..a.Length] == was;
    hide Uniq;
    assert a[..n] == u;
  }

  method RoundDown(a: array<nat>)
    modifies a
    ensures forall i :: 0 <= i < a.Length ==> a[i] == BlockOf(old(a[i]))
  {
    for i := 0 to a.Length
      invariant forall k :: 0 <= k < i ==> a[k] == BlockOf(old(a[k]))
      invariant forall k :: i <= k < a.Length ==> a[k] == old(a[k])
    {
      a[i] := a[i] - a[i] % CHUNK;
    }
  }

  // -------------------------------------------------------------- merged runs

  function Kept(blocks: seq<nat>, allocs: seq<Range>): seq<nat> {
    if blocks == [] then []
    else
      var rest, v := Kept(blocks[..|blocks| - 1], allocs), blocks[|blocks| - 1];
      if InAllocs(allocs, v) then rest + [v] else rest
  }

  function End(r: Range): nat { r.va + r.length }

  /** Maximal runs of adjacent blocks. */
  function Runs(blocks: seq<nat>): (rs: seq<Range>)
    ensures blocks != [] ==> rs != []
    ensures rs != [] ==> rs[|rs| - 1].length > 0
  {
    if blocks == [] then []
    else
      Grown(Runs(blocks[..|blocks| - 1]), blocks[|blocks| - 1])
  }

  function Capped(rs: seq<Range>): seq<Range> {
    if |rs| <= MAX_RANGES then rs else rs[..MAX_RANGES]
  }

  method Emit(out0: seq<Range>, r: Range, ghost before: seq<Range>) returns (out: seq<Range>)
    requires out0 == Capped(before)
    ensures out == Capped(before + [r])
  {
    out := out0;
    if |out| < MAX_RANGES {
      out := out + [r];
    }
  }

  lemma {:induction false} KeptStep(blocks: seq<nat>, i: nat, allocs: seq<Range>)
    requires i < |blocks|
    ensures Kept(blocks[..i + 1], allocs)
         == if InAllocs(allocs, blocks[i]) then Kept(blocks[..i], allocs) + [blocks[i]] else Kept(blocks[..i], allocs)
  {
    assert blocks[..i + 1][..i] == blocks[..i];
  }

  function Grown(rs: seq<Range>, v: nat): seq<Range> {
    if rs != [] && v == End(rs[|rs| - 1]) then rs[..|rs| - 1] + [Range(rs[|rs| - 1].va, rs[|rs| - 1].length + CHUNK)]
    else rs + [Range(v, CHUNK)]
  }

  lemma {:induction false} RunsStep(kept: seq<nat>, v: nat)
    ensures Runs(kept + [v]) == Grown(Runs(kept), v)
  {
    assert (kept + [v])[..|kept|] == kept;
  }

  lemma {:induction false} RunsGrow(kept: seq<nat>, v: nat, before: seq<Range>, start: nat, end: nat)
    requires start < end && Runs(kept) == before + [Range(start, end - start)]
    ensures Runs(kept + [v]) == if v == end then before + [Range(start, end + CHUNK - start)]
                                else before + [Range(start, end - start)] + [Range(v, CHUNK)]
  {
    var rs := before + [Range(start, end - start)];
    assert rs[..|rs| - 1] == before;
    RunsStep(kept, v);
  }

  method MergeBlocks(blocks: seq<nat>, allocs: seq<Range>) returns (out: seq<Range>)
    ensures out == Capped(Runs(Kept(blocks, allocs)))
  {
    out := [];
    var valid, start: nat, end: nat := false, 0, 0;
    ghost var before: seq<Range>, kept: seq<nat> := [], [];
    for i := 0 to |blocks|
      invariant kept == Kept(blocks[..i], allocs)
      invariant out == Capped(before)
      invariant if valid then start < end && Runs(kept) == before + [Range(start, end - start)] else Runs(kept) == [] == before
    {
      var va := blocks[i];
      var inRange := FindAlloc(allocs, va);
      KeptStep(blocks, i, allocs);
      if inRange {
        if !valid {
          RunsStep(kept, va);
          start, end, valid := va, va + CHUNK, true;
        } else {
          RunsGrow(kept, va, before, start, end);
          if va == end {
            end := va + CHUNK;
          } else {
            out := Emit(out, Range(start, end - start), before);
            before := before + [Range(start, end - start)];
            start, end := va, va + CHUNK;
          }
        }
        kept := kept + [va];
      }
      hide Capped, Kept, InAllocs, Runs;
    }
    assert blocks[..|blocks|] == blocks;
    if valid {
      out := Emit(out, Range(start, end - start), before);
    }
  }

  // ------------------------------------------------------- what the list means

  /** Address `a` lies in a block with a dirty page, inside an allocation. */
  ghost predicate Wanted(dirty: seq<nat>, allocs: seq<Range>, a: nat) {
    BlockIn(dirty, BlockOf(a)) && InAllocs(allocs, BlockOf(a))
  }

  ghost predicate BlockIn(dirty: seq<nat>, b: nat) {
    exists i :: 0 <= i < |dirty| && BlockOf(dirty[i]) == b
  }

  ghost predicate InSome(rs: seq<Range>, a: int) {
    exists k :: 0 <= k < |rs| && InBlock(rs[k], a)
  }

  /** Whole blocks, in order, with at least a block between any two. */
  ghost predicate Separate(rs: seq<Range>) {
    && (forall k :: 0 <= k < |rs| ==> rs[k].va % CHUNK == 0 && rs[k].length % CHUNK == 0 && rs[k].length > 0)
    && (forall k, l :: 0 <= k < l < |rs| ==> End(rs[k]) < rs[l].va)
  }

  lemma {:induction false} KeptSubset(blocks: seq<nat>, allocs: seq<Range>)
    requires Strict(blocks) && AllBlocks(blocks)
    ensures Strict(Kept(blocks, allocs)) && AllBlocks(Kept(blocks, allocs))
    ensures forall x :: x in Kept(blocks, allocs) <==> x in blocks && InAllocs(allocs, x)
  {
    hide InAllocs;
    if blocks != [] {
      var rest := blocks[..|blocks| - 1];
      KeptSubset(rest, allocs);
      assert blocks == rest + [blocks[|blocks| - 1]];
      var kept := Kept(rest, allocs);
      forall i | 0 <= i < |kept| ensures kept[i] < blocks[|blocks| - 1] {
        assert kept[i] in kept && kept[i] in rest;
      }
    }
  }

  lemma {:induction false} GrownSeparate(rs: seq<Range>, v: nat)
    requires Separate(rs) && v % CHUNK == 0 && (rs != [] ==> End(rs[|rs| - 1]) <= v)
    ensures Separate(Grown(rs, v))
    ensures End(Grown(rs, v)[|Grown(rs, v)| - 1]) == v + CHUNK
  {
    if rs != [] && v == End(rs[|rs| - 1]) {
      Whole(rs[|rs| - 1].length);
    }
  }

  lemma {:induction false} Whole(length: nat)
    requires length % CHUNK == 0
    ensures (length + CHUNK) % CHUNK == 0
  {
  }

  lemma {:induction false} GrownCovers(rs: seq<Range>, v: nat, a: nat)
    ensures InSome(Grown(rs, v), a) <==> InSome(rs, a) || v <= a < v + CHUNK
  {
    var gs := Grown(rs, v);
    if rs != [] && v == End(rs[|rs| - 1]) {
      var last := |rs| - 1;
      assert forall k :: 0 <= k < last ==> gs[k] == rs[k];
      assert InBlock(gs[last], a) <==> InBlock(rs[last], a) || v <= a < v + CHUNK;
    } else {
      assert forall k :: 0 <= k < |rs| ==> gs[k] == rs[k];
      assert InBlock(gs[|rs|], a) <==> v <= a < v + CHUNK;
    }
  }

  lemma {:induction false} RunsNext(rest: seq<nat>, v: nat, a: nat)
    requires Strict(rest + [v]) && AllBlocks(rest + [v])
    requires Separate(Runs(rest)) && (rest != [] ==> End(Runs(rest)[|Runs(rest)| - 1]) == rest[|rest| - 1] + CHUNK)
    ensures Separate(Runs(rest + [v]))
    ensures End(Runs(rest + [v])[|Runs(rest + [v])| - 1]) == v + CHUNK
    ensures InSome(Runs(rest + [v]), a) <==> InSome(Runs(rest), a) || BlockOf(a) == v
  {
    hide Grown, InSome, Separate;
    var all, n := rest + [v], |rest|;
    assert all[n] == v && v % CHUNK == 0;
    if n > 0 {
      assert all[n - 1] == rest[n - 1] && all[n - 1] < all[n] && all[n - 1] % CHUNK == 0;
      NextBlock(rest[n - 1], v);
    }
    assert Runs(rest) == [] ==> rest == [];
    hide Runs, Strict, AllBlocks;
    BlockIff(a, v);
    RunsStep(rest, v);
    GrownSeparate(Runs(rest), v);
    GrownCovers(Runs(rest), v, a);
  }

  lemma {:induction false} BlockIff(a: nat, v: nat)
    requires v % CHUNK == 0
    ensures v <= a < v + CHUNK <==> BlockOf(a) == v
  {
  }

  lemma {:induction false} NextBlock(b: nat, v: nat)
    requires b < v && b % CHUNK == 0 && v % CHUNK == 0
    ensures b + CHUNK <= v
  {
  }

  /** The runs are separate and cover exactly the blocks. */
  lemma {:induction false} RunsExact(blocks: seq<nat>, a: nat)
    requires Strict(blocks) && AllBlocks(blocks)
    ensures Separate(Runs(blocks))
    ensures blocks != [] ==> End(Runs(blocks)[|Runs(blocks)| - 1]) == blocks[|blocks| - 1] + CHUNK
    ensures InSome(Runs(blocks), a) <==> BlockOf(a) in blocks
  {
    assert Separate([]) && !InSome([], a);
    hide InSome, Separate, Grown, BlockOf;
    if blocks != [] {
      var rest, v := blocks[..|blocks| - 1], blocks[|blocks| - 1];
      assert Strict(rest) && AllBlocks(rest);
      assert blocks == rest + [v];
      hide Strict, AllBlocks;
      RunsExact(rest, a);
      RunsNext(rest, v, a);
      hide Runs;
      LastIn(rest, v, BlockOf(a));
    }
  }

  lemma {:induction false} LastIn(rest: seq<nat>, v: nat, x: nat)
    ensures x in rest + [v] <==> x in rest || x == v
  {
  }

  function Rounded(addrs: seq<nat>): (r: seq<nat>)
    ensures |r| == |addrs| && forall i :: 0 <= i < |r| ==> r[i] == BlockOf(addrs[i])
  {
    seq(|addrs|, i requires 0 <= i < |addrs| => BlockOf(addrs[i]))
  }

  /** What the library sort makes of the rounded addresses. */
  ghost predicate SortedOf(addrs: seq<nat>, sorted: seq<nat>) {
    Ascending(sorted) && multiset(sorted) == multiset(Rounded(addrs))
  }

  function RunsOf(sorted: seq<nat>, allocs: seq<Range>): seq<Range> {
    Runs(Kept(Uniq(sorted), allocs))
  }

  lemma {:induction false} SortedHas(addrs: seq<nat>, sorted: seq<nat>, b: nat)
    requires SortedOf(addrs, sorted)
    ensures b in sorted <==> BlockIn(addrs, b)
    ensures AllBlocks(sorted)
  {
    var r := Rounded(addrs);
    assert b in sorted <==> b in multiset(sorted);
    assert b in multiset(sorted) <==> b in multiset(r);
    assert b in r <==> BlockIn(addrs, b);
    forall i | 0 <= i < |sorted| ensures sorted[i] % CHUNK == 0 {
      assert sorted[i] in multiset(sorted) && sorted[i] in multiset(r) && sorted[i] in r;
    }
  }

  lemma {:induction false} UniqBlocks(s: seq<nat>)
    requires Ascending(s) && AllBlocks(s)
    ensures AllBlocks(Uniq(s)) && Strict(Uniq(s))
    ensures forall x :: x in Uniq(s) <==> x in s
  {
    UniqStrict(s);
    var u := Uniq(s);
    forall i | 0 <= i < |u| ensures u[i] % CHUNK == 0 {
      assert u[i] in u && u[i] in s;
    }
  }

  /** The runs cover exactly the dirty blocks inside allocations. */
  lemma {:induction false} RunsOfExact(addrs: seq<nat>, sorted: seq<nat>, allocs: seq<Range>, a: nat)
    requires SortedOf(addrs, sorted)
    ensures Separate(RunsOf(sorted, allocs))
    ensures InSome(RunsOf(sorted, allocs), a) <==> Wanted(addrs, allocs, a)
  {
    SortedHas(addrs, sorted, BlockOf(a));
    UniqBlocks(sorted);
    KeptSubset(Uniq(sorted), allocs);
    RunsExact(Kept(Uniq(sorted), allocs), a);
    hide InAllocs, Runs, Kept, Uniq, BlockIn, SortedOf, Strict, AllBlocks, Separate, InSome;
  }

  lemma {:induction false} CappedExact(rs: seq<Range>)
    requires Separate(rs)
    ensures Separate(Capped(rs)) && |Capped(rs)| <= MAX_RANGES
    ensures forall a: nat :: InSome(Capped(rs), a) ==> InSome(rs, a)
    ensures (forall a: nat :: InSome(rs, a) ==> InSome(Capped(rs), a)) <==> |rs| <= MAX_RANGES
  {
    var out := Capped(rs);
    assert forall k :: 0 <= k < |out| ==> out[k] == rs[k];
    if |rs| > MAX_RANGES {
      var a: nat := rs[MAX_RANGES].va;
      assert InBlock(rs[MAX_RANGES], a);
      assert InSome(rs, a) && !InSome(out, a);
    }
  }

  /** The whole listing, in place on the address buffer. Every range is made of dirty
      blocks inside allocations; all such blocks are listed exactly when there are no
      more runs than the gate's table holds, and otherwise the last runs are missing. */
  method CoalesceDirty(addrs: array<nat>, sorted: seq<nat>, allocs: seq<Range>) returns (out: seq<Range>)
    requires SortedOf(addrs[..], sorted)
    modifies addrs
    ensures out == Capped(RunsOf(sorted, allocs))
    ensures Separate(out) && |out| <= MAX_RANGES
    ensures forall a: nat :: InSome(out, a) ==> Wanted(old(addrs[..]), allocs, a)
    ensures (forall a: nat :: Wanted(old(addrs[..]), allocs, a) ==> InSome(out, a)) <==> |RunsOf(sorted, allocs)| <= MAX_RANGES
  {
    ghost var was := addrs[..];
    RoundDown(addrs);
    SameLength(was, sorted);
    Replace(addrs, sorted);
    var n := Dedup(addrs);
    out := MergeBlocks(addrs[..n], allocs);
    CappedWanted(was, sorted, allocs);
    hide Separate, InSome, Wanted, Capped, Runs, Kept, Uniq, SortedOf;
  }

  method Replace(a: array<nat>, s: seq<nat>)
    requires |s| == a.Length
    modifies a
    ensures a[..] == s
  {
    forall i | 0 <= i < a.Length { a[i] := s[i]; }
  }

  lemma {:induction false} CappedWanted(addrs: seq<nat>, sorted: seq<nat>, allocs: seq<Range>)
    requires SortedOf(addrs, sorted)
    ensures var out := Capped(RunsOf(sorted, allocs));
            && Separate(out) && |out| <= MAX_RANGES
            && (forall a: nat :: InSome(out, a) ==> Wanted(addrs, allocs, a))
            && ((forall a: nat :: Wanted(addrs, allocs, a) ==> InSome(out, a)) <==> |RunsOf(sorted, allocs)| <= MAX_RANGES)
  {
    forall a: nat ensures InSome(RunsOf(sorted, allocs), a) <==> Wanted(addrs, allocs, a) {
      RunsOfExact(addrs, sorted, allocs, a);
    }
    RunsOfExact(addrs, sorted, allocs, 0);
    hide Separate, InSome, Wanted, Capped, RunsOf, SortedOf;
    CappedExact(RunsOf(sorted, allocs));
  }

  lemma {:induction false} SameLength(addrs: seq<nat>, sorted: seq<nat>)
    requires SortedOf(addrs, sorted)
    ensures |sorted| == |addrs|
  {
    assert |multiset(sorted)| == |multiset(Rounded(addrs))|;
  }
}
