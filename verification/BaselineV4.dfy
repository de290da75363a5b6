/** The in-app baseline and its delta (version 4): ranges encrypted in 2 MB chunks by a
    pool of workers, restored allocation by allocation with the delta laid over. */
module BaselineV4 {
  import opened Bytes
  import opened PageCrypto

  const CHUNK: nat := 0x20_0000
  const META_BYTES: nat := 28

  datatype Range = Range(va: nat, length: nat)

  datatype Error = NoLiveAllocs | Misaligned | BadTag

  datatype Result<T> = Ok(value: T) | Err(error: Error)

  /** One 2 MB chunk in a file: its ciphertext and its metadata entry. */
  datatype Cell = Cell(cipher: seq<byte>, meta: PageMeta)

  /** An image by its descriptors and, per range, its chunks. */
  datatype File = File(ranges: seq<Range>, cells: seq<seq<Cell>>) {
    ghost predicate Valid() {
      |cells| == |ranges| && forall i :: 0 <= i < |ranges| ==>
        ranges[i].length % CHUNK == 0 && |cells[i]| == ranges[i].length / CHUNK
    }
  }

  // ----------------------------------------------------------------- layout

  /** Bytes of a range in the file: residency map (baseline only), ciphertext, metadata. */
  function RangeBytes(r: Range, withMap: bool): nat {
    (if withMap then r.length / 4096 else 0) + r.length + META_BYTES * (r.length / CHUNK)
  }

  function DataOffset(start: nat, ranges: seq<Range>, withMap: bool, i: nat): nat
    requires i <= |ranges|
  {
    if i == 0 then start else DataOffset(start, ranges, withMap, i - 1) + RangeBytes(ranges[i - 1], withMap)
  }

  /** File offset of the ciphertext of chunk `j` of range `i`. */
  function CipherAt(start: nat, ranges: seq<Range>, withMap: bool, i: nat, j: nat): nat
    requires i < |ranges|
  {
    DataOffset(start, ranges, withMap, i) + (if withMap then ranges[i].length / 4096 else 0) + CHUNK * j
  }

  /** File offset of its metadata entry. */
  function MetaAt(start: nat, ranges: seq<Range>, withMap: bool, i: nat, j: nat): nat
    requires i < |ranges|
  {
    DataOffset(start, ranges, withMap, i) + (if withMap then ranges[i].length / 4096 else 0) + ranges[i].length + META_BYTES * j
  }

  lemma {:induction false} OffsetsGrow(start: nat, ranges: seq<Range>, withMap: bool, i: nat, k: nat)
    requires i <= k <= |ranges|
    ensures DataOffset(start, ranges, withMap, i) <= DataOffset(start, ranges, withMap, k)
  {
    if i < k {
      OffsetsGrow(start, ranges, withMap, i, k - 1);
    }
  }

  /** An allocation table entry, and the ranges of those not freed. */
  datatype Entry = Entry(va: nat, size: nat, freed: bool)

  function Live(entries: seq<Entry>): seq<Range> {
    if entries == [] then []
    else
      var last := entries[|entries| - 1];
      var rest := Live(entries[..|entries| - 1]);
      if last.freed then rest else rest + [Range(last.va, last.size)]
  }

  const HEAD_BYTES: nat := 24
  const RANGE_DESC_BYTES: nat := 64
  const BLOCK_DESC_BYTES: nat := 32

  predicate AllWhole(ranges: seq<Range>, n: nat)
    requires n <= |ranges|
  {
    forall i :: 0 <= i < n ==> ranges[i].length % CHUNK == 0
  }

  predicate AllWholeBlocks(ranges: seq<Range>, n: nat)
    requires n <= |ranges|
  {
    forall i :: 0 <= i < n ==> ranges[i].va % CHUNK == 0 && ranges[i].length % CHUNK == 0 && ranges[i].length != 0
  }

  method FilterLive(entries: seq<Entry>) returns (live: seq<Range>)
    ensures live == Live(entries)
  {
    live := [];
    for i := 0 to |entries|
      invariant live == Live(entries[..i])
    {
      assert entries[..i + 1][..i] == entries[..i];
      if !entries[i].freed {
        live := live + [Range(entries[i].va, entries[i].size)];
      }
    }
    assert entries[..|entries|] == entries;
  }

  /** `at` are the data offsets and `end` the file size of a file with these ranges. */
  ghost predicate Laid(start: nat, ranges: seq<Range>, withMap: bool, at: seq<nat>, end: nat) {
    && |at| <= |ranges| && end == DataOffset(start, ranges, withMap, |at|)
    && forall i :: 0 <= i < |at| ==> at[i] == DataOffset(start, ranges, withMap, i)
  }

  lemma {:induction false} LaidNext(start: nat, ranges: seq<Range>, withMap: bool, at: seq<nat>, end: nat)
    requires Laid(start, ranges, withMap, at, end) && |at| < |ranges|
    ensures Laid(start, ranges, withMap, at + [end], end + RangeBytes(ranges[|at|], withMap))
  {
    hide RangeBytes;
  }

  /** Descriptor offsets and file size of a baseline: refused exactly when no allocation
      is live or some live one is not a whole number of chunks. */
  method LayOutBaseline(entries: seq<Entry>) returns (r: Result<(seq<nat>, nat)>)
    ensures var live := Live(entries);
            r.Ok? <==> live != [] && AllWhole(live, |live|)
    ensures r.Err? ==> r.error == if Live(entries) == [] then NoLiveAllocs else Misaligned
    ensures var live := Live(entries);
            r.Ok? ==> |r.value.0| == |live|
                      && Laid(HEAD_BYTES + RANGE_DESC_BYTES * |live|, live, true, r.value.0, r.value.1)
  {
    hide Laid, RangeBytes;
    var live := FilterLive(entries);
    if |live| == 0 { return Err(NoLiveAllocs); }
    var start := HEAD_BYTES + RANGE_DESC_BYTES * |live|;
    var at: seq<nat>, end: nat := [], start;
    LaidStart(start, live, true);
    for i := 0 to |live|
      invariant AllWhole(live, i) && |at| == i && Laid(start, live, true, at, end)
    {
      if live[i].length % CHUNK != 0 { return Err(Misaligned); }
      LaidNext(start, live, true, at, end);
      at := at + [end];
      end := end + RangeBytes(live[i], true);
    }
    r := Ok((at, end));
  }

  lemma {:induction false} LaidStart(start: nat, ranges: seq<Range>, withMap: bool)
    ensures Laid(start, ranges, withMap, [], start)
  {
  }

  /** The same for a delta: refused exactly when a block is misaligned or empty. */
  method LayOutDelta(blocks: seq<Range>) returns (r: Result<(seq<nat>, nat)>)
    ensures r.Ok? <==> AllWholeBlocks(blocks, |blocks|)
    ensures r.Err? ==> r.error == Misaligned
    ensures r.Ok? ==> |r.value.0| == |blocks|
                      && Laid(HEAD_BYTES + BLOCK_DESC_BYTES * |blocks|, blocks, false, r.value.0, r.value.1)
  {
    hide Laid, RangeBytes;
    var start := HEAD_BYTES + BLOCK_DESC_BYTES * |blocks|;
    var at: seq<nat>, end: nat := [], start;
    LaidStart(start, blocks, false);
    for i := 0 to |blocks|
      invariant AllWholeBlocks(blocks, i) && |at| == i && Laid(start, blocks, false, at, end)
    {
      if blocks[i].va % CHUNK != 0 || blocks[i].length % CHUNK != 0 || blocks[i].length == 0 { return Err(Misaligned); }
      LaidNext(start, blocks, false, at, end);
      at := at + [end];
      end := end + RangeBytes(blocks[i], false);
    }
    r := Ok((at, end));
  }

  /** Chunks are written to places of their own: neither ciphertexts nor metadata
      entries of two chunks overlap, nor a ciphertext and an entry. */
  lemma {:induction false} CellsApart(start: nat, ranges: seq<Range>, withMap: bool, i: nat, j: nat, k: nat, l: nat)
    requires i < |ranges| && k < |ranges| && (i, j) != (k, l) && i <= k && (i == k ==> j < l)
    requires ranges[i].length % CHUNK == 0 && j < ranges[i].length / CHUNK
    requires ranges[k].length % CHUNK == 0 && l < ranges[k].length / CHUNK
    ensures CipherAt(start, ranges, withMap, i, j) + CHUNK <= CipherAt(start, ranges, withMap, k, l)
    ensures MetaAt(start, ranges, withMap, i, j) + META_BYTES <= MetaAt(start, ranges, withMap, k, l)
    ensures CipherAt(start, ranges, withMap, i, j) + CHUNK <= MetaAt(start, ranges, withMap, i, j)
    ensures i < k ==> MetaAt(start, ranges, withMap, i, j) + META_BYTES <= CipherAt(start, ranges, withMap, k, l)
  {
    if i < k {
      OffsetsGrow(start, ranges, withMap, i + 1, k);
    }
  }

  // ---------------------------------------------------------------- dispatch

  /** Chunks `first` .. `first + count` of range `range`, sealed from counter `iv` on. */
  datatype Item = Item(range: nat, first: nat, count: nat, iv: nat)

  /** Chunks of the ranges before `i`. */
  function ChunksBefore(ranges: seq<Range>, i: nat): nat
    requires i <= |ranges|
  {
    if i == 0 then 0 else ChunksBefore(ranges, i - 1) + ranges[i - 1].length / CHUNK
  }

  predicate Has(item: Item, i: nat, j: nat) {
    item.range == i && item.first <= j < item.first + item.count
  }

  /** Every chunk before chunk `j` of range `i` is in exactly one item, which seals it
      under the counter its place in the image gives, and no other chunk is. */
  ghost predicate Covered(ranges: seq<Range>, base: nat, items: seq<Item>, i: nat, j: nat) {
    && (forall a :: 0 <= a < |items| ==>
          && items[a].range < |ranges| && items[a].count > 0
          && items[a].first + items[a].count <= ranges[items[a].range].length / CHUNK
          && items[a].iv == base + ChunksBefore(ranges, items[a].range) + items[a].first
          && (items[a].range < i || (items[a].range == i && items[a].first + items[a].count <= j)))
    && (forall a, b :: 0 <= a < b < |items| ==>
          items[a].range < items[b].range || (items[a].range == items[b].range && items[a].first + items[a].count <= items[b].first))
    && (forall k, l :: 0 <= k < |ranges| && 0 <= l < ranges[k].length / CHUNK && (k < i || (k == i && l < j)) ==> SomeHas(items, k, l))
  }

  ghost predicate SomeHas(items: seq<Item>, i: nat, j: nat) {
    exists a :: 0 <= a < |items| && Has(items[a], i, j)
  }

  /** Size of the next piece: at most `split`, whole chunks, at least one. */
  function Piece(left: nat, split: nat): (n: nat)
    requires left > 0 && left % CHUNK == 0
    ensures n % CHUNK == 0 && CHUNK <= n <= left
  {
    var piece := if left > split then split else left;
    var whole := piece - piece % CHUNK;
    if whole == 0 then CHUNK else whole
  }

  lemma {:induction false} NextCovered(ranges: seq<Range>, base: nat, items: seq<Item>, i: nat, j: nat, n: nat)
    requires Covered(ranges, base, items, i, j) && i < |ranges| && n > 0 && j + n <= ranges[i].length / CHUNK
    ensures Covered(ranges, base, items + [Item(i, j, n, base + ChunksBefore(ranges, i) + j)], i, j + n)
  {
    var item := Item(i, j, n, base + ChunksBefore(ranges, i) + j);
    var all := items + [item];
    forall k, l | 0 <= k < |ranges| && 0 <= l < ranges[k].length / CHUNK && (k < i || (k == i && l < j + n)) ensures SomeHas(all, k, l) {
      if k < i || l < j {
        assert SomeHas(items, k, l);
        var a :| 0 <= a < |items| && Has(items[a], k, l);
        assert Has(all[a], k, l);
      } else {
        assert Has(all[|items|], k, l);
      }
    }
    hide ChunksBefore;
  }

  lemma {:induction false} NextRange(ranges: seq<Range>, base: nat, items: seq<Item>, i: nat)
    requires i < |ranges| && Covered(ranges, base, items, i, ranges[i].length / CHUNK)
    ensures Covered(ranges, base, items, i + 1, 0)
  {
    hide ChunksBefore, SomeHas;
  }

  /** Split one range into work items of at most `split` bytes. */
  method DispatchRange(ranges: seq<Range>, base: nat, i: nat, split: nat, items0: seq<Item>, counter0: nat)
    returns (items: seq<Item>, counter: nat)
    requires i < |ranges| && ranges[i].length % CHUNK == 0
    requires Covered(ranges, base, items0, i, 0) && counter0 == ChunksBefore(ranges, i)
    ensures Covered(ranges, base, items, i + 1, 0) && counter == ChunksBefore(ranges, i + 1)
  {
    items, counter := items0, counter0;
    var copied: nat := 0;
    while copied < ranges[i].length
      invariant copied <= ranges[i].length && copied % CHUNK == 0
      invariant Covered(ranges, base, items, i, copied / CHUNK)
      invariant counter == ChunksBefore(ranges, i) + copied / CHUNK
    {
      var n := Piece(ranges[i].length - copied, split);
      NextCovered(ranges, base, items, i, copied / CHUNK, n / CHUNK);
      items := items + [Item(i, copied / CHUNK, n / CHUNK, base + counter)];
      counter := counter + n / CHUNK;
      copied := copied + n;
      hide Covered, Piece;
    }
    NextRange(ranges, base, items, i);
  }

  /** Split every range; `split` is 256 MB for a baseline and 8 MB for a delta. */
  method Dispatch(ranges: seq<Range>, base: nat, split: nat) returns (items: seq<Item>, counter: nat)
    requires forall i :: 0 <= i < |ranges| ==> ranges[i].length % CHUNK == 0
    ensures Covered(ranges, base, items, |ranges|, 0) && counter == ChunksBefore(ranges, |ranges|)
  {
    items, counter := [], 0;
    for i := 0 to |ranges|
      invariant Covered(ranges, base, items, i, 0) && counter == ChunksBefore(ranges, i)
    {
      items, counter := DispatchRange(ranges, base, i, split, items, counter);
    }
  }

  /** What the launcher copied from the device for chunk `j` of range `i`. */
  type Staged = (nat, nat) -> seq<byte>

  /** The cell the image should have for chunk `j` of range `i`. */
  function ImageCell(c: Cipher, staged: Staged, ranges: seq<Range>, base: nat, i: nat, j: nat): Cell
    requires i < |ranges|
  {
    var iv := BuildIv(base + ChunksBefore(ranges, i) + j);
    var sealed := c.seal(iv, staged(i, j));
    Cell(sealed.0, PageMeta(iv, sealed.1))
  }

  // -------------------------------------------------------------- file bytes

  const IV_BYTES: nat := 12

  /** A metadata entry as it is stored: IV, then tag. */
  function MetaBytes(m: PageMeta): seq<byte> { m.iv + m.tag }

  function ParseMeta(b: seq<byte>): PageMeta
    requires |b| == META_BYTES
  {
    PageMeta(b[..IV_BYTES], b[IV_BYTES..])
  }

  function FileSize(start: nat, ranges: seq<Range>, withMap: bool): nat {
    DataOffset(start, ranges, withMap, |ranges|)
  }

  /** Every chunk has its places inside the file. */
  lemma {:induction false} CellInside(start: nat, ranges: seq<Range>, withMap: bool, i: nat, j: nat)
    requires i < |ranges| && ranges[i].length % CHUNK == 0 && j < ranges[i].length / CHUNK
    ensures CipherAt(start, ranges, withMap, i, j) + CHUNK <= MetaAt(start, ranges, withMap, i, j)
    ensures MetaAt(start, ranges, withMap, i, j) + META_BYTES <= FileSize(start, ranges, withMap)
  {
    OffsetsGrow(start, ranges, withMap, i + 1, |ranges|);
  }

  /** The cell of chunk `j` of range `i`, read at the offsets of the layout. */
  function ReadCell(img: seq<byte>, start: nat, ranges: seq<Range>, withMap: bool, i: nat, j: nat): Cell
    requires i < |ranges| && CipherAt(start, ranges, withMap, i, j) + CHUNK <= |img|
    requires MetaAt(start, ranges, withMap, i, j) + META_BYTES <= |img|
  {
    var at, metaAt := CipherAt(start, ranges, withMap, i, j), MetaAt(start, ranges, withMap, i, j);
    Cell(img[at..at + CHUNK], ParseMeta(img[metaAt..metaAt + META_BYTES]))
  }

  /** A file's chunks as a reader finds them in its bytes. */
  function FileOf(img: seq<byte>, start: nat, ranges: seq<Range>, withMap: bool): (f: File)
    requires AllWhole(ranges, |ranges|) && FileSize(start, ranges, withMap) <= |img|
    ensures f.Valid() && f.ranges == ranges
  {
    File(ranges, seq(|ranges|, i requires 0 <= i < |ranges| =>
      seq(ranges[i].length / CHUNK, j requires 0 <= j < ranges[i].length / CHUNK =>
        (CellInside(start, ranges, withMap, i, j); ReadCell(img, start, ranges, withMap, i, j)))))
  }

  lemma {:induction false} MetaRoundTrip(m: PageMeta)
    requires |m.iv| == IV_BYTES && |m.tag| == TAG_BYTES
    ensures |MetaBytes(m)| == META_BYTES && ParseMeta(MetaBytes(m)) == m
  {
  }

  // ----------------------------------------------------------------- restore

  /** The first range that holds the allocation whole, or |ranges|. */
  function FindRange(ranges: seq<Range>, va: nat, size: nat, from: nat := 0): (d: nat)
    requires from <= |ranges|
    ensures from <= d <= |ranges|
    ensures d < |ranges| ==> ranges[d].va <= va && va + size <= ranges[d].va + ranges[d].length
    ensures forall k :: from <= k < d ==> !(ranges[k].va <= va && va + size <= ranges[k].va + ranges[k].length)
    decreases |ranges| - from
  {
    if from == |ranges| || (ranges[from].va <= va && va + size <= ranges[from].va + ranges[from].length) then from
    else FindRange(ranges, va, size, from + 1)
  }

  function Unsealed(c: Cipher, cell: Cell): Option<seq<byte>> {
    c.unseal(cell.meta, cell.cipher)
  }

  /** Decrypt `n` cells from `first` on into the staging chunks from `at` on. */
  method DecryptInto(c: Cipher, cells: seq<Cell>, first: nat, n: nat, staging0: seq<seq<byte>>, at: nat) returns (r: Result<seq<seq<byte>>>)
    requires first + n <= |cells| && at + n <= |staging0|
    ensures r.Ok? <==> forall q :: first <= q < first + n ==> Unsealed(c, cells[q]).Some?
    ensures r.Err? ==> r.error == BadTag
    ensures r.Ok? ==> |r.value| == |staging0| && forall x :: 0 <= x < |staging0| ==>
              if at <= x < at + n then Unsealed(c, cells[first + (x - at)]) == Some(r.value[x]) else r.value[x] == staging0[x]
  {
    var staging := staging0;
    for k := 0 to n
      invariant |staging| == |staging0|
      invariant forall q :: first <= q < first + k ==> Unsealed(c, cells[q]).Some?
      invariant forall x :: 0 <= x < |staging0| ==>
        if at <= x < at + k then Unsealed(c, cells[first + (x - at)]) == Some(staging[x]) else staging[x] == staging0[x]
    {
      var page := Unsealed(c, cells[first + k]);
      if page.None? { return Err(BadTag); }
      staging := staging[at + k := page.value];
    }
    r := Ok(staging);
  }

  function Higher(a: nat, b: nat): nat { if a > b then a else b }

  function Lower(a: nat, b: nat): nat { if a < b then a else b }

  predicate Overlaps(blk: Range, va: nat, end: nat) {
    Higher(va, blk.va) < Lower(end, blk.va + blk.length)
  }

  predicate InBlock(blk: Range, a: int) {
    blk.va <= a < blk.va + blk.length
  }

  /** Address `a` of block `b`, decrypted. */
  ghost function CellAt(c: Cipher, f: File, b: nat, a: nat): Option<seq<byte>>
    requires f.Valid() && b < |f.ranges| && InBlock(f.ranges[b], a)
  {
    Unsealed(c, f.cells[b][(a - f.ranges[b].va) / CHUNK])
  }

  /** Staging chunk at address `a` before and after block `b` is laid over it. */
  ghost predicate Overlaid(c: Cipher, f: File, b: nat, a: nat, was: seq<byte>, now: seq<byte>)
    requires f.Valid() && b < |f.ranges|
  {
    if InBlock(f.ranges[b], a) then CellAt(c, f, b, a) == Some(now) else now == was
  }

  ghost predicate BlockOpens(c: Cipher, f: File, b: nat, va: nat, n: nat)
    requires f.Valid() && b < |f.ranges|
  {
    forall x :: 0 <= x < n && InBlock(f.ranges[b], va + CHUNK * x) ==> CellAt(c, f, b, va + CHUNK * x).Some?
  }

  /** Which staging chunks a block covers, and which of its cells they take. */
  lemma {:induction false} BlockChunks(blk: Range, va: nat, n: nat, x: nat)
    requires blk.va % CHUNK == 0 && blk.length % CHUNK == 0 && va % CHUNK == 0 && x < n
    requires Overlaps(blk, va, va + CHUNK * n)
    ensures var lo, hi := Higher(va, blk.va), Lower(va + CHUNK * n, blk.va + blk.length);
            && (lo - blk.va) % CHUNK == 0 && (hi - lo) % CHUNK == 0
            && (lo - blk.va) / CHUNK + (hi - lo) / CHUNK <= blk.length / CHUNK
            && (lo - va) / CHUNK + (hi - lo) / CHUNK <= n
            && (InBlock(blk, va + CHUNK * x) <==> (lo - va) / CHUNK <= x < (lo - va) / CHUNK + (hi - lo) / CHUNK)
            && (InBlock(blk, va + CHUNK * x) ==> (va + CHUNK * x - blk.va) / CHUNK == (lo - blk.va) / CHUNK + (x - (lo - va) / CHUNK))
  {
    var a, b, l := va / CHUNK, blk.va / CHUNK, blk.length / CHUNK;
    assert va == CHUNK * a && blk.va == CHUNK * b && blk.length == CHUNK * l;
    var lo, hi := if a > b then a else b, if a + n < b + l then a + n else b + l;
    assert Higher(va, blk.va) == CHUNK * lo && Lower(va + CHUNK * n, blk.va + blk.length) == CHUNK * hi;
  }

  /** Lay one delta block over the staging buffer of the allocation at `va`. */
  method OverlayBlock(c: Cipher, delta: File, b: nat, va: nat, staging0: seq<seq<byte>>) returns (r: Result<seq<seq<byte>>>)
    requires delta.Valid() && b < |delta.ranges|
    requires delta.ranges[b].va % CHUNK == 0 && va % CHUNK == 0
    ensures r.Ok? <==> BlockOpens(c, delta, b, va, |staging0|)
    ensures r.Ok? ==> |r.value| == |staging0|
                      && forall x :: 0 <= x < |staging0| ==> Overlaid(c, delta, b, va + CHUNK * x, staging0[x], r.value[x])
  {
    var blk, n := delta.ranges[b], |staging0|;
    if !Overlaps(blk, va, va + CHUNK * n) { return Ok(staging0); }
    var lo, hi := Higher(va, blk.va), Lower(va + CHUNK * n, blk.va + blk.length);
    forall x | 0 <= x < n ensures
        && (InBlock(blk, va + CHUNK * x) <==> (lo - va) / CHUNK <= x < (lo - va) / CHUNK + (hi - lo) / CHUNK)
        && (InBlock(blk, va + CHUNK * x) ==> (va + CHUNK * x - blk.va) / CHUNK == (lo - blk.va) / CHUNK + (x - (lo - va) / CHUNK))
    {
      BlockChunks(blk, va, n, x);
    }
    BlockChunks(blk, va, n, 0);
    if (lo - blk.va) % CHUNK != 0 || (hi - lo) % CHUNK != 0 { return Err(Misaligned); }
    var first, count, at := (lo - blk.va) / CHUNK, (hi - lo) / CHUNK, (lo - va) / CHUNK;
    r := DecryptInto(c, delta.cells[b], first, count, staging0, at);
    OpensIff(c, delta, b, va, n, first, count, at);
  }

  lemma {:induction false} OpensIff(c: Cipher, f: File, b: nat, va: nat, n: nat, first: nat, count: nat, at: nat)
    requires f.Valid() && b < |f.ranges| && first + count <= |f.cells[b]| && at + count <= n
    requires forall x :: 0 <= x < n ==> (InBlock(f.ranges[b], va + CHUNK * x) <==> at <= x < at + count)
    requires forall x :: at <= x < at + count ==> (va + CHUNK * x - f.ranges[b].va) / CHUNK == first + (x - at)
    ensures BlockOpens(c, f, b, va, n) <==> forall q :: first <= q < first + count ==> Unsealed(c, f.cells[b][q]).Some?
  {
    if BlockOpens(c, f, b, va, n) {
      forall q | first <= q < first + count ensures Unsealed(c, f.cells[b][q]).Some? {
        var x := q - first + at;
        assert InBlock(f.ranges[b], va + CHUNK * x);
        assert CellAt(c, f, b, va + CHUNK * x).Some?;
      }
    }
  }

  // ---------------------------------------------------------- whole allocation

  /** The chunk at `a` after the first `n` delta blocks are laid over `under`. */
  ghost function DeltaOver(c: Cipher, delta: File, n: nat, a: nat, under: seq<byte>): Option<seq<byte>>
    requires delta.Valid() && n <= |delta.ranges|
  {
    if n == 0 then Some(under)
    else if InBlock(delta.ranges[n - 1], a) then CellAt(c, delta, n - 1, a)
    else DeltaOver(c, delta, n - 1, a, under)
  }

  ghost predicate Aligned(ranges: seq<Range>) {
    forall i :: 0 <= i < |ranges| ==> ranges[i].va % CHUNK == 0
  }

  /** All delta blocks in turn, over the whole staging buffer. */
  method OverlayAll(c: Cipher, delta: File, va: nat, staging0: seq<seq<byte>>) returns (r: Result<seq<seq<byte>>>)
    requires delta.Valid() && Aligned(delta.ranges) && va % CHUNK == 0
    ensures r.Ok? <==> forall b :: 0 <= b < |delta.ranges| ==> BlockOpens(c, delta, b, va, |staging0|)
    ensures r.Ok? ==> |r.value| == |staging0| && forall x :: 0 <= x < |staging0| ==>
              DeltaOver(c, delta, |delta.ranges|, va + CHUNK * x, staging0[x]) == Some(r.value[x])
  {
    var staging := staging0;
    for b := 0 to |delta.ranges|
      invariant |staging| == |staging0|
      invariant forall d :: 0 <= d < b ==> BlockOpens(c, delta, d, va, |staging0|)
      invariant forall x :: 0 <= x < |staging0| ==> DeltaOver(c, delta, b, va + CHUNK * x, staging0[x]) == Some(staging[x])
    {
      ghost var was := staging;
      var step := OverlayBlock(c, delta, b, va, staging);
      if step.Err? { return Err(step.error); }
      staging := step.value;
      forall x | 0 <= x < |staging0| ensures DeltaOver(c, delta, b + 1, va + CHUNK * x, staging0[x]) == Some(staging[x]) {
        assert Overlaid(c, delta, b, va + CHUNK * x, was[x], staging[x]);
        hide CellAt;
      }
      hide BlockOpens, DeltaOver;
    }
    r := Ok(staging);
  }

  predicate WholeWindow(r: Range, va: nat, copySize: nat)
    requires r.va <= va
  {
    (va - r.va) % CHUNK == 0 && copySize % CHUNK == 0 && copySize >= CHUNK
  }

  function Get(o: Option<seq<byte>>): seq<byte> {
    if o.Some? then o.value else []
  }

  /** Every chunk of the window decrypts, in the base and in each delta block over it. */
  ghost predicate AllOpen(c: Cipher, base: File, delta: File, d: nat, va: nat, n: nat)
    requires base.Valid() && delta.Valid() && d < |base.ranges|
  {
    BlockOpens(c, base, d, va, n) && forall b :: 0 <= b < |delta.ranges| ==> BlockOpens(c, delta, b, va, n)
  }

  /** What a restore assembles at address `a`: the base chunk under the delta blocks. */
  ghost function RestoredChunk(c: Cipher, base: File, delta: File, d: nat, a: nat): Option<seq<byte>>
    requires base.Valid() && delta.Valid() && d < |base.ranges| && InBlock(base.ranges[d], a)
  {
    DeltaOver(c, delta, |delta.ranges|, a, Get(CellAt(c, base, d, a)))
  }

  /** Restore `copySize` bytes of the allocation at `va` from base range `d`: refused
      exactly when the window is not whole chunks or one of its chunks, in the base or in
      a delta block over it, does not decrypt. */
  ghost predicate Restores(c: Cipher, base: File, delta: File, d: nat, va: nat, copySize: nat, r: Result<seq<seq<byte>>>)
    requires base.Valid() && delta.Valid()
    requires d < |base.ranges| && base.ranges[d].va <= va && va + copySize <= base.ranges[d].va + base.ranges[d].length
  {
    && (r == Err(Misaligned) <==> !WholeWindow(base.ranges[d], va, copySize))
    && (r.Ok? <==> WholeWindow(base.ranges[d], va, copySize) && AllOpen(c, base, delta, d, va, copySize / CHUNK))
    && (r.Ok? ==> |r.value| * CHUNK == copySize && forall x :: 0 <= x < |r.value| ==>
          && InBlock(base.ranges[d], va + CHUNK * x)
          && RestoredChunk(c, base, delta, d, va + CHUNK * x) == Some(r.value[x]))
  }

  method RestoreAlloc(c: Cipher, base: File, delta: File, d: nat, va: nat, copySize: nat) returns (r: Result<seq<seq<byte>>>)
    requires base.Valid() && delta.Valid() && Aligned(delta.ranges) && va % CHUNK == 0
    requires d < |base.ranges| && base.ranges[d].va <= va && va + copySize <= base.ranges[d].va + base.ranges[d].length
    ensures Restores(c, base, delta, d, va, copySize, r)
  {
    hide DeltaOver, BlockOpens, CellAt;
    var offset := va - base.ranges[d].va;
    if offset % CHUNK != 0 || copySize % CHUNK != 0 || copySize < CHUNK { return Err(Misaligned); }
    var n := copySize / CHUNK;
    BaseChunks(base.ranges[d], va, copySize);
    r := DecryptInto(c, base.cells[d], offset / CHUNK, n, seq(n, _ => []), 0);
    WindowOpens(c, base, d, va, copySize);
    if r.Err? { return; }
    var plain := r.value;
    r := OverlayAll(c, delta, va, plain);
    if r.Err? { return Err(BadTag); }
    forall x | 0 <= x < n
      ensures InBlock(base.ranges[d], va + CHUNK * x) && CellAt(c, base, d, va + CHUNK * x) == Some(plain[x])
    {
      WindowCell(c, base, d, va, copySize, x);
    }
  }

  /** Which base cell the window's chunk `x` comes from. */
  lemma {:induction false} WindowCell(c: Cipher, base: File, d: nat, va: nat, copySize: nat, x: nat)
    requires base.Valid() && d < |base.ranges| && base.ranges[d].va <= va && va + copySize <= base.ranges[d].va + base.ranges[d].length
    requires WholeWindow(base.ranges[d], va, copySize) && x < copySize / CHUNK
    ensures InBlock(base.ranges[d], va + CHUNK * x)
    ensures (va + CHUNK * x - base.ranges[d].va) / CHUNK == (va - base.ranges[d].va) / CHUNK + x < |base.cells[d]|
    ensures CellAt(c, base, d, va + CHUNK * x) == Unsealed(c, base.cells[d][(va - base.ranges[d].va) / CHUNK + x])
  {
  }

  lemma {:induction false} WindowOpens(c: Cipher, base: File, d: nat, va: nat, copySize: nat)
    requires base.Valid() && d < |base.ranges| && base.ranges[d].va <= va && va + copySize <= base.ranges[d].va + base.ranges[d].length
    requires WholeWindow(base.ranges[d], va, copySize)
    ensures var first, n := (va - base.ranges[d].va) / CHUNK, copySize / CHUNK;
            && first + n <= |base.cells[d]|
            && (BlockOpens(c, base, d, va, n) <==> forall q :: first <= q < first + n ==> Unsealed(c, base.cells[d][q]).Some?)
  {
    hide BlockOpens, CellAt;
    var first, n := (va - base.ranges[d].va) / CHUNK, copySize / CHUNK;
    BaseChunks(base.ranges[d], va, copySize);
    forall x | 0 <= x < n ensures InBlock(base.ranges[d], va + CHUNK * x) && (va + CHUNK * x - base.ranges[d].va) / CHUNK == first + x {
      WindowCell(c, base, d, va, copySize, x);
    }
    OpensIff(c, base, d, va, n, first, n, 0);
  }

  lemma {:induction false} BaseChunks(r: Range, va: nat, copySize: nat)
    requires r.length % CHUNK == 0 && r.va <= va && va + copySize <= r.va + r.length
    requires (va - r.va) % CHUNK == 0 && copySize % CHUNK == 0
    ensures (va - r.va) / CHUNK + copySize / CHUNK <= r.length / CHUNK
  {
  }

  // -------------------------------------------------------------- round trip

  /** A file whose cells are those of its image. */
  ghost predicate SealedFile(c: Cipher, staged: Staged, base: nat, f: File) {
    f.Valid() && forall i, j :: 0 <= i < |f.ranges| && 0 <= j < |f.cells[i]| ==>
      f.cells[i][j] == ImageCell(c, staged, f.ranges, base, i, j)
  }

  ghost predicate BlocksDisjoint(ranges: seq<Range>) {
    forall i, j, a :: 0 <= i < |ranges| && 0 <= j < |ranges| && InBlock(ranges[i], a) && InBlock(ranges[j], a) ==> i == j
  }

  lemma {:induction false} CellOpens(c: Cipher, staged: Staged, base: nat, f: File, b: nat, a: nat)
    requires c.Sound() && SealedFile(c, staged, base, f) && b < |f.ranges| && InBlock(f.ranges[b], a)
    ensures CellAt(c, f, b, a) == Some(staged(b, (a - f.ranges[b].va) / CHUNK))
  {
    var j := (a - f.ranges[b].va) / CHUNK;
    assert f.cells[b][j] == ImageCell(c, staged, f.ranges, base, b, j);
    var iv := BuildIv(base + ChunksBefore(f.ranges, b) + j);
    assert c.unseal(PageMeta(iv, c.seal(iv, staged(b, j)).1), c.seal(iv, staged(b, j)).0) == Some(staged(b, j));
  }

  lemma {:induction false} DeltaDecides(c: Cipher, delta: File, n: nat, a: nat, under: seq<byte>)
    requires delta.Valid() && n <= |delta.ranges| && BlocksDisjoint(delta.ranges)
    ensures forall b :: 0 <= b < n && InBlock(delta.ranges[b], a) ==> DeltaOver(c, delta, n, a, under) == CellAt(c, delta, b, a)
    ensures (forall b :: 0 <= b < n ==> !InBlock(delta.ranges[b], a)) ==> DeltaOver(c, delta, n, a, under) == Some(under)
  {
    hide CellAt;
    if n > 0 {
      DeltaDecides(c, delta, n - 1, a, under);
    }
  }

  /** Sealed images always decrypt: the restore of an aligned allocation succeeds. */
  lemma {:induction false} SealedOpens(c: Cipher, staged: Staged, iv: nat, f: File, b: nat, va: nat, n: nat)
    requires c.Sound() && SealedFile(c, staged, iv, f) && b < |f.ranges|
    ensures BlockOpens(c, f, b, va, n)
  {
    forall x | 0 <= x < n && InBlock(f.ranges[b], va + CHUNK * x) ensures CellAt(c, f, b, va + CHUNK * x).Some? {
      CellOpens(c, staged, iv, f, b, va + CHUNK * x);
    }
  }

  /** The last copy of the chunk at `a`: the delta's where a block covers it, else the
      baseline's. */
  ghost predicate IsLatest(baseStaged: Staged, deltaStaged: Staged, baseRanges: seq<Range>, deltaRanges: seq<Range>, d: nat, a: nat, chunk: seq<byte>)
    requires d < |baseRanges| && InBlock(baseRanges[d], a)
  {
    && (forall b :: 0 <= b < |deltaRanges| && InBlock(deltaRanges[b], a) ==> chunk == deltaStaged(b, (a - deltaRanges[b].va) / CHUNK))
    && ((forall b :: 0 <= b < |deltaRanges| ==> !InBlock(deltaRanges[b], a)) ==> chunk == baseStaged(d, (a - baseRanges[d].va) / CHUNK))
  }

  /** Baseline and delta round trip: over disjoint delta blocks each chunk of sealed images
      decrypts to the last copy taken of it, for any dispatch split and any counters. */
  lemma {:induction false} OverlayRoundTrip(c: Cipher, baseStaged: Staged, deltaStaged: Staged, baseIv: nat, deltaIv: nat,
                                            base: File, delta: File, d: nat, a: nat)
    requires c.Sound() && SealedFile(c, baseStaged, baseIv, base) && SealedFile(c, deltaStaged, deltaIv, delta)
    requires BlocksDisjoint(delta.ranges) && d < |base.ranges| && InBlock(base.ranges[d], a)
    ensures var chunk := RestoredChunk(c, base, delta, d, a);
            chunk.Some? && IsLatest(baseStaged, deltaStaged, base.ranges, delta.ranges, d, a, chunk.value)
  {
    DeltaDecides(c, delta, |delta.ranges|, a, Get(CellAt(c, base, d, a)));
    CellOpens(c, baseStaged, baseIv, base, d, a);
    forall b | 0 <= b < |delta.ranges| && InBlock(delta.ranges[b], a)
      ensures CellAt(c, delta, b, a) == Some(deltaStaged(b, (a - delta.ranges[b].va) / CHUNK))
    {
      CellOpens(c, deltaStaged, deltaIv, delta, b, a);
    }
    hide CellAt, DeltaOver, SealedFile;
  }

  /** A whole allocation: found in the baseline with whole chunks, its restore from sealed
      images succeeds, and every chunk is the last copy taken of it. */
  lemma {:induction false} AllocRoundTrip(c: Cipher, baseStaged: Staged, deltaStaged: Staged, baseIv: nat, deltaIv: nat,
                                          base: File, delta: File, va: nat, size: nat, r: Result<seq<seq<byte>>>)
    requires c.Sound() && SealedFile(c, baseStaged, baseIv, base) && SealedFile(c, deltaStaged, deltaIv, delta)
    requires BlocksDisjoint(delta.ranges)
    requires var d := FindRange(base.ranges, va, size);
             d < |base.ranges| && WholeWindow(base.ranges[d], va, size) && Restores(c, base, delta, d, va, size, r)
    ensures r.Ok? && |r.value| * CHUNK == size
    ensures var d := FindRange(base.ranges, va, size);
            forall x :: 0 <= x < |r.value| ==>
              && InBlock(base.ranges[d], va + CHUNK * x)
              && IsLatest(baseStaged, deltaStaged, base.ranges, delta.ranges, d, va + CHUNK * x, r.value[x])
  {
    assert base.Valid() && delta.Valid();
    hide FindRange, SealedFile, BlockOpens, BlocksDisjoint, IsLatest, RestoredChunk, File.Valid;
    var d := FindRange(base.ranges, va, size);
    SealedOpens(c, baseStaged, baseIv, base, d, va, size / CHUNK);
    forall b | 0 <= b < |delta.ranges| ensures BlockOpens(c, delta, b, va, size / CHUNK) {
      SealedOpens(c, deltaStaged, deltaIv, delta, b, va, size / CHUNK);
    }
    assert AllOpen(c, base, delta, d, va, size / CHUNK) && r.Ok?;
    forall x | 0 <= x < |r.value|
      ensures IsLatest(baseStaged, deltaStaged, base.ranges, delta.ranges, d, va + CHUNK * x, r.value[x])
    {
      OverlayRoundTrip(c, baseStaged, deltaStaged, baseIv, deltaIv, base, delta, d, va + CHUNK * x);
    }
  }
}
