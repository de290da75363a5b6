/** Capture, write, restore: what comes back from the two image files is the base
    overlaid with the delta, page by page. */
module RestoreRoundTrip {
  import opened Bytes
  import opened ImageFormat
  import opened PageMap
  import opened RestoreRead
  import opened RestoreGroups
  import opened RestoreFull

  /** What the capture calls deliver: whole pages, as many as the range is long, each
      present one packed in its section. */
  ghost predicate WellCaptured(caps: seq<Capture>) {
    AllPacked(caps) && forall i :: 0 <= i < |caps| ==> caps[i].length == PAGE_SIZE * |caps[i].resmap|
  }

  /** The descriptors a file was written with. */
  function Written(k: Kind, caps: seq<Capture>): (ds: seq<Desc>)
    ensures |ds| == |caps|
  {
    Descs(caps, DataStart(k, |caps|), |caps|)
  }

  lemma {:induction false} PlainBytes(c: Capture, a: nat)
    requires Packed(c)
    ensures Packed(Plain(c)) && CapByte(Plain(c), a) == CapByte(c, a)
  {
  }

  /** A written range reads back as itself. */
  lemma {:induction false} WrittenSound(k: Kind, caps: seq<Capture>, file: seq<byte>, i: nat)
    requires Image(k, caps) <= file && i < |caps| && Packed(caps[i])
    ensures var d := Written(k, caps)[i];
            && Sound(file, d) && ReadSound(file, d) == Plain(caps[i]) && d.resmapSize == d.numPages
            && d.baseVa == caps[i].base && d.length == caps[i].length
  {
    hide Image, Packed, Descs, SectionsReadable, ReadCapture, SizeUpTo, CapByte;
    ReadWritten(k, caps, file, i);
    PlainBytes(caps[i], 0);
  }

  /** A written range fits any group that holds it. */
  lemma {:induction false} WrittenFits(k: Kind, caps: seq<Capture>, file: seq<byte>, i: nat, g: Group)
    requires Image(k, caps) <= file && i < |caps| && WellCaptured(caps) && Holds(g, Written(k, caps)[i])
    ensures Fits(file, Written(k, caps)[i], g)
  {
    WrittenSound(k, caps, file, i);
    hide Image, Packed, SectionsReadable, ReadCapture, Written;
  }

  /** Laying written blocks in file order is overlaying their captures. */
  lemma {:induction false} BlocksOverlay(k: Kind, caps: seq<Capture>, file: seq<byte>, n: nat, a: nat, under: byte)
    requires Image(k, caps) <= file && AllPacked(caps) && n <= |caps|
    ensures forall i :: 0 <= i < n ==> Sound(file, Written(k, caps)[i])
    ensures RangesByte(file, Written(k, caps), n, a, under) == Overlay(caps, n, a, under)
  {
    hide Image, Written, Packed, CapByte, Sound, ReadSound;
    if n > 0 {
      BlocksOverlay(k, caps, file, n - 1, a, under);
      WrittenSound(k, caps, file, n - 1);
      PlainBytes(caps[n - 1], a);
    }
  }

  /** Each descriptor in `ds` that has address `a` describes capture `c`. */
  ghost predicate OnlyCapture(file: seq<byte>, ds: seq<Desc>, n: nat, c: Capture, a: nat)
    requires n <= |ds| && forall i :: 0 <= i < |ds| ==> Sound(file, ds[i])
  {
    forall i :: 0 <= i < n && InPages(ReadSound(file, ds[i]), a) ==> ReadSound(file, ds[i]) == c
  }

  lemma {:induction false} LaidOnce(file: seq<byte>, ds: seq<Desc>, n: nat, c: Capture, a: nat, under: byte)
    requires n <= |ds| && Packed(c) && forall i :: 0 <= i < |ds| ==> Sound(file, ds[i])
    requires OnlyCapture(file, ds, n, c, a)
    ensures RangesByte(file, ds, n, a, under)
         == if exists i :: 0 <= i < n && InPages(ReadSound(file, ds[i]), a) then Laid(c, a, under) else under
  {
    hide Packed, CapByte, ReadSound, Sound, InPages;
    if n > 0 {
      LaidOnce(file, ds, n - 1, c, a, under);
      var last := ReadSound(file, ds[n - 1]);
      assert Sound(file, ds[n - 1]);
      if !InPages(last, a) {
        OutsideNone(last, a);
      }
    }
  }

  lemma {:induction false} SortedFrom(ds: seq<Desc>, sorted: seq<Desc>, j: nat) returns (i: nat)
    requires multiset(sorted) == multiset(ds) && j < |sorted|
    ensures i < |ds| && ds[i] == sorted[j]
  {
    assert sorted[j] in multiset(sorted);
    assert sorted[j] in ds;
    i :| 0 <= i < |ds| && ds[i] == sorted[j];
  }

  /** Over disjoint ranges the order in which they are laid does not matter. */
  lemma {:induction false} SortedOverlay(k: Kind, caps: seq<Capture>, file: seq<byte>, sorted: seq<Desc>, a: nat, under: byte)
    requires Image(k, caps) <= file && AllPacked(caps) && Disjoint(caps)
    requires SortedOf(Written(k, caps), sorted)
    ensures forall j :: 0 <= j < |sorted| ==> Sound(file, sorted[j])
    ensures RangesByte(file, sorted, |sorted|, a, under) == Overlay(caps, |caps|, a, under)
  {
    hide Image, Written, Packed, CapByte, Sound, ReadSound, Overlay, RangesByte;
    var ds := Written(k, caps);
    forall j | 0 <= j < |sorted|
      ensures Sound(file, sorted[j])
      ensures exists i :: 0 <= i < |caps| && ReadSound(file, sorted[j]) == Plain(caps[i])
    {
      var i := SortedFrom(ds, sorted, j);
      WrittenSound(k, caps, file, i);
    }
    if i :| 0 <= i < |caps| && InPages(caps[i], a) {
      LaidAsCaptured(k, caps, file, sorted, i, a, under);
    } else {
      OverlayOutside(caps, |caps|, a, under);
      forall j | 0 <= j < |sorted| ensures !InPages(ReadSound(file, sorted[j]), a) {
        var i :| 0 <= i < |caps| && ReadSound(file, sorted[j]) == Plain(caps[i]);
        assert !InPages(caps[i], a);
      }
      EmptyPacked();
      LaidOnce(file, sorted, |sorted|, Capture(0, 0, [], [], [], []), a, under);
    }
  }

  lemma {:induction false} EmptyPacked()
    ensures Packed(Capture(0, 0, [], [], [], []))
  {
  }

  lemma {:induction false} LaidAsCaptured(k: Kind, caps: seq<Capture>, file: seq<byte>, sorted: seq<Desc>, i: nat, a: nat, under: byte)
    requires Image(k, caps) <= file && AllPacked(caps) && Disjoint(caps)
    requires SortedOf(Written(k, caps), sorted) && i < |caps| && InPages(caps[i], a)
    requires forall j :: 0 <= j < |sorted| ==> Sound(file, sorted[j])
    requires forall j :: 0 <= j < |sorted| ==> exists q :: 0 <= q < |caps| && ReadSound(file, sorted[j]) == Plain(caps[q])
    ensures RangesByte(file, sorted, |sorted|, a, under) == Overlay(caps, |caps|, a, under)
  {
    hide Image, Written, Packed, CapByte, Sound, ReadSound, Overlay, RangesByte;
    var ds := Written(k, caps);
    forall j | 0 <= j < |sorted| && InPages(ReadSound(file, sorted[j]), a)
      ensures ReadSound(file, sorted[j]) == Plain(caps[i])
    {
      var q :| 0 <= q < |caps| && ReadSound(file, sorted[j]) == Plain(caps[q]);
      assert InPages(caps[q], a);
    }
    WrittenSound(k, caps, file, i);
    assert ds[i] in multiset(sorted) by { assert ds[i] in multiset(ds); }
    var j :| 0 <= j < |sorted| && sorted[j] == ds[i];
    assert InPages(ReadSound(file, sorted[j]), a);
    PlainBytes(caps[i], a);
    LaidOnce(file, sorted, |sorted|, Plain(caps[i]), a, under);
    OverlayDisjoint(caps, |caps|, i, a, under);
  }

  /** Every delta block lies inside some group of the baseline. */
  ghost predicate BlocksInside(blocks: seq<Desc>, groups: seq<Group>) {
    forall i :: 0 <= i < |blocks| ==> exists g :: 0 <= g < |groups| && Holds(groups[g], blocks[i])
  }

  /** Both files as they were written, possibly with stale bytes behind the images. */
  ghost predicate WrittenFiles(version: nat, caps: seq<Capture>, delta: Kind, blocks: seq<Capture>,
                               baseFile: seq<byte>, deltaFile: seq<byte>, sorted: seq<Desc>)
  {
    && delta.Delta? && Image(Baseline(version), caps) <= baseFile && Image(delta, blocks) <= deltaFile
    && FitsFields(Baseline(version), caps) && FitsFields(delta, blocks) && |caps| <= RestoreRead.MAX_RANGES
    && WellCaptured(caps) && Disjoint(caps)
    && SortedOf(Written(Baseline(version), caps), sorted)
    && |Groups(sorted, |sorted|)| <= MAX_GROUPS
    && BlocksInside(Written(delta, blocks), Groups(sorted, |sorted|))
  }

  ghost predicate WrittenPair(version: nat, caps: seq<Capture>, delta: Kind, blocks: seq<Capture>,
                              baseFile: seq<byte>, deltaFile: seq<byte>, sorted: seq<Desc>)
  {
    WrittenFiles(version, caps, delta, blocks, baseFile, deltaFile, sorted) && WellCaptured(blocks)
  }

  /** Writing then restoring gives, at every address, the byte of the last delta block
      that has the page, else the base page, else zero; for disjoint base ranges in any
      order and any blocks inside the groups. */
  lemma {:induction false} FullRoundTrip(version: nat, caps: seq<Capture>, delta: Kind, blocks: seq<Capture>,
                                         baseFile: seq<byte>, deltaFile: seq<byte>, sorted: seq<Desc>, a: nat)
    requires WrittenPair(version, caps, delta, blocks, baseFile, deltaFile, sorted)
    ensures Restorable(baseFile, deltaFile, sorted)
    ensures AllSound(baseFile, sorted) && AllSound(deltaFile, ParseDelta(deltaFile).value)
    ensures RestoredByte(baseFile, deltaFile, sorted, a) == Overlay(blocks, |blocks|, a, Overlay(caps, |caps|, a, 0))
  {
    hide Image, FitsFields, Written, Overlay, RangesByte, Packed, Groups, SortedOf, Sound, Fits;
    ParseWritten(Baseline(version), caps, baseFile);
    ParseWritten(delta, blocks, deltaFile);
    PairRestorable(version, caps, delta, blocks, baseFile, deltaFile, sorted);
    SortedOverlay(Baseline(version), caps, baseFile, sorted, a, 0);
    BlocksOverlay(delta, blocks, deltaFile, |blocks|, a, Overlay(caps, |caps|, a, 0));
    assert ParseDelta(deltaFile).value == Written(delta, blocks) by { WrittenIs(delta, blocks); }
    hide ParseBase, ParseDelta, BaseFits, DeltaFits;
  }

  lemma {:induction false} WrittenIs(k: Kind, caps: seq<Capture>)
    ensures Written(k, caps) == Descs(caps, DataStart(k, |caps|), |caps|)
  {
  }

  lemma {:induction false} PairRestorable(version: nat, caps: seq<Capture>, delta: Kind, blocks: seq<Capture>,
                                          baseFile: seq<byte>, deltaFile: seq<byte>, sorted: seq<Desc>)
    requires WrittenPair(version, caps, delta, blocks, baseFile, deltaFile, sorted)
    requires ParseBase(baseFile).Ok? && ParseDelta(deltaFile) == Ok(Descs(blocks, DataStart(delta, |blocks|), |blocks|))
    ensures Restorable(baseFile, deltaFile, sorted)
  {
    hide Image, FitsFields, Packed, Fits, ParseBase, ParseDelta;
    var gs := Groups(sorted, |sorted|);
    forall j | 0 <= j < |sorted| ensures GroupOf(sorted, j) < |gs| && Fits(baseFile, sorted[j], gs[GroupOf(sorted, j)]) {
      GroupHolds(sorted, |sorted|, j);
      var i := SortedFrom(Written(Baseline(version), caps), sorted, j);
      WrittenFits(Baseline(version), caps, baseFile, i, gs[GroupOf(sorted, j)]);
    }
    WrittenIs(delta, blocks);
    hide Written;
    var ds := Written(delta, blocks);
    forall i | 0 <= i < |ds| ensures FindGroup(gs, ds[i]) < |gs| && Fits(deltaFile, ds[i], gs[FindGroup(gs, ds[i])]) {
      var g :| 0 <= g < |gs| && Holds(gs[g], ds[i]);
      assert FindGroup(gs, ds[i]) < |gs|;
      WrittenFits(delta, blocks, deltaFile, i, gs[FindGroup(gs, ds[i])]);
    }
  }
}
