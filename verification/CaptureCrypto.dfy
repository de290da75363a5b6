/** Encrypting captures in one batch and decrypting them range by range: gather, seal,
    scatter on one side; combined or split decryption on the other. */
module CaptureCrypto {
  import opened Bytes
  import opened PageCrypto
  import RestoreJobs

  /** A stored metadata entry: how many bytes it covers, and the page's IV and tag. */
  datatype Entry = Entry(size: nat, page: PageMeta)

  /** A capture's packed sections; `gpuEntries` come from the driver when it encrypted
      the GPU section itself. */
  datatype Sections = Sections(cpu: seq<byte>, gpu: seq<byte>, entries: seq<Entry>)

  const PAGE_SZ: nat := 4096

  /** A whole number of chunks. */
  predicate Whole(n: nat, chunk: nat)
    requires chunk > 0
  {
    n == 0 || (n >= chunk && Whole(n - chunk, chunk))
  }

  lemma {:induction false} WholeSum(m: nat, n: nat, chunk: nat)
    requires chunk > 0 && Whole(m, chunk)
    ensures Whole(m + n, chunk) <==> Whole(n, chunk)
  {
    if m > 0 {
      WholeSum(m - chunk, n, chunk);
    }
  }

  function Chunks(n: nat, chunk: nat): nat
    requires chunk > 0 && Whole(n, chunk)
  {
    if n == 0 then 0 else 1 + Chunks(n - chunk, chunk)
  }

  lemma {:induction false} ChunksSum(m: nat, n: nat, chunk: nat)
    requires chunk > 0 && Whole(m, chunk) && Whole(n, chunk)
    ensures Whole(m + n, chunk) && Chunks(m + n, chunk) == Chunks(m, chunk) + Chunks(n, chunk)
  {
    WholeSum(m, n, chunk);
    if m > 0 {
      ChunksSum(m - chunk, n, chunk);
    }
  }

  /** `data` sealed chunk by chunk from counter `iv` on. */
  function SealFrom(c: Cipher, data: seq<byte>, chunk: nat, iv: nat): seq<byte>
    requires chunk > 0 && Whole(|data|, chunk)
    decreases |data|
  {
    if data == [] then []
    else c.seal(BuildIv(iv), data[..chunk]).0 + SealFrom(c, data[chunk..], chunk, iv + 1)
  }

  function EntriesFrom(c: Cipher, data: seq<byte>, chunk: nat, iv: nat): (es: seq<Entry>)
    requires chunk > 0 && Whole(|data|, chunk)
    ensures |es| == Chunks(|data|, chunk)
    decreases |data|
  {
    if data == [] then []
    else [Entry(chunk, PageMeta(BuildIv(iv), c.seal(BuildIv(iv), data[..chunk]).1))] + EntriesFrom(c, data[chunk..], chunk, iv + 1)
  }

  lemma {:induction false} SealLength(c: Cipher, data: seq<byte>, chunk: nat, iv: nat)
    requires c.Sound() && chunk > 0 && Whole(|data|, chunk)
    ensures |SealFrom(c, data, chunk, iv)| == |data|
    decreases |data|
  {
    if data != [] {
      SealLength(c, data[chunk..], chunk, iv + 1);
    }
  }

  lemma {:induction false} WholeHead(a: seq<byte>, b: seq<byte>, chunk: nat)
    requires chunk > 0 && a != [] && Whole(|a|, chunk) && Whole(|b|, chunk)
    ensures chunk <= |a| && Whole(|a + b|, chunk) && Whole(|a[chunk..]|, chunk) && Whole(|a[chunk..] + b|, chunk)
    ensures Chunks(|a|, chunk) == 1 + Chunks(|a[chunk..]|, chunk)
    ensures (a + b)[..chunk] == a[..chunk] && (a + b)[chunk..] == a[chunk..] + b
  {
    WholeSum(|a|, |b|, chunk);
  }

  /** Sealing two pieces in one go is sealing them one after the other. */
  lemma {:induction false} SealConcat(c: Cipher, a: seq<byte>, b: seq<byte>, chunk: nat, iv: nat)
    requires chunk > 0 && Whole(|a|, chunk) && Whole(|b|, chunk)
    ensures Whole(|a + b|, chunk)
    ensures SealFrom(c, a + b, chunk, iv) == SealFrom(c, a, chunk, iv) + SealFrom(c, b, chunk, iv + Chunks(|a|, chunk))
    decreases |a|
  {
    if a == [] {
      assert a + b == b;
    } else {
      hide Whole, Chunks;
      WholeHead(a, b, chunk);
      SealConcat(c, a[chunk..], b, chunk, iv + 1);
    }
  }

  lemma {:induction false} ConcatAssoc(x: seq<Entry>, y: seq<Entry>, z: seq<Entry>)
    ensures x + (y + z) == x + y + z
  {
  }

  lemma {:induction false} EntriesHead(c: Cipher, data: seq<byte>, chunk: nat, iv: nat)
    requires chunk > 0 && data != [] && Whole(|data|, chunk)
    ensures chunk <= |data| && Whole(|data[chunk..]|, chunk)
    ensures EntriesFrom(c, data, chunk, iv)
         == [Entry(chunk, PageMeta(BuildIv(iv), c.seal(BuildIv(iv), data[..chunk]).1))] + EntriesFrom(c, data[chunk..], chunk, iv + 1)
  {
  }

  lemma {:induction false} EntriesConcat(c: Cipher, a: seq<byte>, b: seq<byte>, chunk: nat, iv: nat)
    requires chunk > 0 && Whole(|a|, chunk) && Whole(|b|, chunk)
    ensures Whole(|a + b|, chunk)
    ensures EntriesFrom(c, a + b, chunk, iv) == EntriesFrom(c, a, chunk, iv) + EntriesFrom(c, b, chunk, iv + Chunks(|a|, chunk))
    decreases |a|
  {
    if a == [] {
      assert a + b == b;
      return;
    }
    hide Whole, Chunks, EntriesFrom, BuildIv;
    WholeHead(a, b, chunk);
    EntriesConcat(c, a[chunk..], b, chunk, iv + 1);
    EntriesHead(c, a, chunk, iv);
    EntriesHead(c, a + b, chunk, iv);
    var rest := EntriesFrom(c, b, chunk, iv + Chunks(|a|, chunk));
    assert iv + Chunks(|a|, chunk) == (iv + 1) + Chunks(|a[chunk..]|, chunk);
    ConcatAssoc([Entry(chunk, PageMeta(BuildIv(iv), c.seal(BuildIv(iv), a[..chunk]).1))], EntriesFrom(c, a[chunk..], chunk, iv + 1), rest);
  }

  // ---------------------------------------------------------- combined batches

  function Joined(s: Sections): seq<byte> { s.cpu + s.gpu }

  /** The first `n` captures end to end. */
  function Gather(caps: seq<Sections>, n: nat): seq<byte>
    requires n <= |caps|
  {
    if n == 0 then [] else Gather(caps, n - 1) + Joined(caps[n - 1])
  }

  ghost predicate AllWhole(caps: seq<Sections>, chunk: nat)
    requires chunk > 0
  {
    forall i :: 0 <= i < |caps| ==> Whole(|Joined(caps[i])|, chunk)
  }

  lemma {:induction false} GatherWhole(caps: seq<Sections>, n: nat, chunk: nat)
    requires chunk > 0 && AllWhole(caps, chunk) && n <= |caps|
    ensures Whole(|Gather(caps, n)|, chunk)
  {
    if n > 0 {
      GatherWhole(caps, n - 1, chunk);
      WholeSum(|Gather(caps, n - 1)|, |Joined(caps[n - 1])|, chunk);
    }
  }

  /** First counter of capture `i` in the batch. */
  function FirstIv(caps: seq<Sections>, i: nat, chunk: nat, iv: nat): nat
    requires chunk > 0 && i <= |caps| && Whole(|Gather(caps, i)|, chunk)
  {
    iv + Chunks(|Gather(caps, i)|, chunk)
  }

  /** Capture `i` after the batch: its own bytes sealed under its own counters, split
      where they were split before, and one entry per chunk. */
  ghost predicate SealedAs(c: Cipher, caps: seq<Sections>, i: nat, chunk: nat, iv: nat, s: Sections)
    requires chunk > 0 && AllWhole(caps, chunk) && i < |caps| && Whole(|Gather(caps, i)|, chunk)
  {
    var base := FirstIv(caps, i, chunk, iv);
    && |s.cpu| == |caps[i].cpu| && |s.gpu| == |caps[i].gpu|
    && Joined(s) == SealFrom(c, Joined(caps[i]), chunk, base)
    && s.entries == EntriesFrom(c, Joined(caps[i]), chunk, base)
  }

  /** The call into the page encryptor; its threads and their schedule do not show. */
  method EncryptPages(c: Cipher, data: seq<byte>, chunk: nat, iv: nat) returns (cipher: seq<byte>, entries: seq<Entry>)
    requires chunk > 0 && Whole(|data|, chunk)
    ensures cipher == SealFrom(c, data, chunk, iv) && entries == EntriesFrom(c, data, chunk, iv)
  {
    cipher, entries := [], [];
    var at, n := 0, 0;
    assert data[0..] == data;
    while at < |data|
      invariant at <= |data| && Whole(|data| - at, chunk)
      invariant SealFrom(c, data, chunk, iv) == cipher + SealFrom(c, data[at..], chunk, iv + n)
      invariant EntriesFrom(c, data, chunk, iv) == entries + EntriesFrom(c, data[at..], chunk, iv + n)
    {
      var page := data[at..at + chunk];
      EntriesHead(c, data[at..], chunk, iv + n);
      assert data[at..][..chunk] == page && data[at..][chunk..] == data[at + chunk..];
      hide EntriesFrom, BuildIv;
      var sealed := c.seal(BuildIv(iv + n), page);
      cipher := cipher + sealed.0;
      entries := entries + [Entry(chunk, PageMeta(BuildIv(iv + n), sealed.1))];
      at, n := at + chunk, n + 1;
    }
  }

  method GatherAll(caps: seq<Sections>) returns (gathered: seq<byte>)
    ensures gathered == Gather(caps, |caps|)
  {
    gathered := [];
    for i := 0 to |caps|
      invariant gathered == Gather(caps, i)
    {
      assert gathered + caps[i].cpu + caps[i].gpu == gathered + Joined(caps[i]);
      gathered := gathered + caps[i].cpu;
      gathered := gathered + caps[i].gpu;
    }
  }

  lemma {:induction false} GatherPrefix(caps: seq<Sections>, m: nat, n: nat)
    requires m <= n <= |caps|
    ensures Gather(caps, m) <= Gather(caps, n)
  {
    if m < n {
      GatherPrefix(caps, m, n - 1);
    }
  }

  /** Whole pieces: what lies between two of them in the sealed batch. */
  lemma {:induction false} SealMiddle(c: Cipher, a: seq<byte>, x: seq<byte>, rest: seq<byte>, chunk: nat, iv: nat)
    requires c.Sound() && chunk > 0 && Whole(|a|, chunk) && Whole(|x|, chunk) && Whole(|rest|, chunk)
    ensures Whole(|a + x + rest|, chunk)
    ensures var all := SealFrom(c, a + x + rest, chunk, iv); var base := iv + Chunks(|a|, chunk);
            && |all| == |a| + |x| + |rest| && all[|a|..|a| + |x|] == SealFrom(c, x, chunk, base)
            && var es := EntriesFrom(c, a + x + rest, chunk, iv);
               && |es| >= Chunks(|a|, chunk) + Chunks(|x|, chunk)
               && es[Chunks(|a|, chunk)..Chunks(|a|, chunk) + Chunks(|x|, chunk)] == EntriesFrom(c, x, chunk, base)
  {
    hide SealFrom, EntriesFrom, Whole, Chunks;
    SealConcat(c, a, x, chunk, iv);
    SealConcat(c, a + x, rest, chunk, iv);
    EntriesConcat(c, a, x, chunk, iv);
    EntriesConcat(c, a + x, rest, chunk, iv);
    SealLength(c, a, chunk, iv);
    SealLength(c, x, chunk, iv + Chunks(|a|, chunk));
    SealLength(c, a + x + rest, chunk, iv);
  }

  lemma {:induction false} ScatterPiece(c: Cipher, caps: seq<Sections>, i: nat, chunk: nat, iv: nat)
    requires c.Sound() && chunk > 0 && AllWhole(caps, chunk) && i < |caps|
    ensures Whole(|Gather(caps, |caps|)|, chunk) && Whole(|Gather(caps, i)|, chunk)
    ensures var x := Joined(caps[i]); var off := |Gather(caps, i)|; var base := FirstIv(caps, i, chunk, iv);
            var all := SealFrom(c, Gather(caps, |caps|), chunk, iv);
            && off + |x| <= |all| && all[off..off + |x|] == SealFrom(c, x, chunk, base)
            && var es := EntriesFrom(c, Gather(caps, |caps|), chunk, iv);
               && |es| >= Chunks(off, chunk) + Chunks(|x|, chunk)
               && es[Chunks(off, chunk)..Chunks(off, chunk) + Chunks(|x|, chunk)] == EntriesFrom(c, x, chunk, base)
  {
    hide SealFrom, EntriesFrom, Whole, Chunks;
    GatherWhole(caps, |caps|, chunk);
    GatherWhole(caps, i, chunk);
    GatherPrefix(caps, i + 1, |caps|);
    var a, x, all := Gather(caps, i), Joined(caps[i]), Gather(caps, |caps|);
    assert a + x <= all;
    hide Gather;
    var rest := all[|a| + |x|..];
    assert all == a + x + rest;
    WholeSum(|a|, |x| + |rest|, chunk);
    WholeSum(|x|, |rest|, chunk);
    SealMiddle(c, a, x, rest, chunk, iv);
  }

  /** Gather every capture, encrypt once, scatter back. */
  method EncryptCaptures(c: Cipher, caps: seq<Sections>, chunk: nat, iv: nat) returns (out: seq<Sections>, nextIv: nat)
    requires c.Sound() && chunk > 0 && AllWhole(caps, chunk)
    ensures |out| == |caps|
    ensures forall i :: 0 <= i < |caps| ==> Whole(|Gather(caps, i)|, chunk) && SealedAs(c, caps, i, chunk, iv, out[i])
    ensures Whole(|Gather(caps, |caps|)|, chunk) && nextIv == FirstIv(caps, |caps|, chunk, iv)
  {
    hide SealedAs, Gather, SealFrom, EntriesFrom, Whole, Chunks;
    GatherWhole(caps, |caps|, chunk);
    var gathered := GatherAll(caps);
    var cipher, entries := EncryptPages(c, gathered, chunk, iv);
    SealLength(c, gathered, chunk, iv);
    nextIv := iv + |entries|;
    out := [];
    var off: nat, entryOff: nat := 0, 0;
    NothingGathered(caps, chunk);
    for i := 0 to |caps|
      invariant |out| == i
      invariant Whole(|Gather(caps, i)|, chunk) && off == |Gather(caps, i)| && entryOff == Chunks(off, chunk)
      invariant forall j :: 0 <= j < i ==> Whole(|Gather(caps, j)|, chunk) && SealedAs(c, caps, j, chunk, iv, out[j])
    {
      ScatterPiece(c, caps, i, chunk, iv);
      OffsetsAdvance(caps, i, chunk);
      var n, m := |caps[i].cpu|, |caps[i].gpu|;
      var count := CountChunks(n + m, chunk);
      var s := Sections(cipher[off..off + n], cipher[off + n..off + n + m], entries[entryOff..entryOff + count]);
      PieceSealed(c, caps, i, chunk, iv, s, cipher[off..off + n + m]);
      out := out + [s];
      off, entryOff := off + n + m, entryOff + count;
    }
  }

  lemma {:induction false} NothingGathered(caps: seq<Sections>, chunk: nat)
    requires chunk > 0
    ensures Gather(caps, 0) == [] && Whole(0, chunk) && Chunks(0, chunk) == 0
  {
  }

  lemma {:induction false} OffsetsAdvance(caps: seq<Sections>, i: nat, chunk: nat)
    requires chunk > 0 && AllWhole(caps, chunk) && i < |caps| && Whole(|Gather(caps, i)|, chunk)
    ensures |Gather(caps, i + 1)| == |Gather(caps, i)| + |caps[i].cpu| + |caps[i].gpu| && Whole(|Gather(caps, i + 1)|, chunk)
    ensures Whole(|caps[i].cpu| + |caps[i].gpu|, chunk)
    ensures Chunks(|Gather(caps, i + 1)|, chunk) == Chunks(|Gather(caps, i)|, chunk) + Chunks(|caps[i].cpu| + |caps[i].gpu|, chunk)
  {
    hide Whole, Chunks;
    assert |Joined(caps[i])| == |caps[i].cpu| + |caps[i].gpu|;
    ChunksSum(|Gather(caps, i)|, |Joined(caps[i])|, chunk);
  }

  lemma {:induction false} PieceSealed(c: Cipher, caps: seq<Sections>, i: nat, chunk: nat, iv: nat, s: Sections, piece: seq<byte>)
    requires chunk > 0 && AllWhole(caps, chunk) && i < |caps| && Whole(|Gather(caps, i)|, chunk)
    requires |s.cpu| == |caps[i].cpu| && |s.gpu| == |caps[i].gpu| && Joined(s) == piece
    requires piece == SealFrom(c, Joined(caps[i]), chunk, FirstIv(caps, i, chunk, iv))
    requires s.entries == EntriesFrom(c, Joined(caps[i]), chunk, FirstIv(caps, i, chunk, iv))
    ensures SealedAs(c, caps, i, chunk, iv, s)
  {
  }

  method CountChunks(n: nat, chunk: nat) returns (k: nat)
    requires chunk > 0 && Whole(n, chunk)
    ensures k == Chunks(n, chunk)
  {
    k := 0;
    var left: nat := n;
    while left > 0
      invariant Whole(left, chunk) && Chunks(n, chunk) == k + Chunks(left, chunk)
    {
      left, k := left - chunk, k + 1;
    }
  }

  // --------------------------------------------------------------- decryption

  function Covered(e: Entry): nat {
    if e.size == 0 then PAGE_SZ else e.size
  }

  /** Where entry `i` starts in its section. */
  function StartOf(entries: seq<Entry>, i: nat): nat
    requires i <= |entries|
  {
    if i == 0 then 0 else StartOf(entries, i - 1) + Covered(entries[i - 1])
  }

  /** The bytes entry `i` covers, cut at the end of the section, decrypted. */
  function PieceOf(c: Cipher, cipher: seq<byte>, entries: seq<Entry>, i: nat): Option<seq<byte>>
    requires i < |entries| && StartOf(entries, i) < |cipher|
  {
    var end := StartOf(entries, i) + Covered(entries[i]);
    c.unseal(entries[i].page, cipher[StartOf(entries, i)..if end > |cipher| then |cipher| else end])
  }

  /** Decrypt a section entry by entry, each entry covering its size (a page when none
      is given), the last one cut at the end of the section. */
  method DecryptSection(c: Cipher, cipher: seq<byte>, entries: seq<Entry>) returns (r: Option<seq<byte>>)
    ensures r == Opened(c, cipher, entries)
    ensures r.Some? <==> PiecesOpen(c, cipher, entries, 0)
  {
    var plain: seq<byte> := [];
    var off: nat, i: nat := 0, 0;
    assert cipher[0..] == cipher && entries[0..] == entries;
    AfterNothing(Opened(c, cipher, entries));
    OpenedWhen(c, cipher, entries, 0, 0);
    hide PiecesOpen;
    while i < |entries| && off < |cipher|
      invariant i <= |entries| && off <= |cipher|
      invariant Opened(c, cipher, entries) == After(plain, Opened(c, cipher[off..], entries[i..]))
    {
      var chunk: nat := if entries[i].size == 0 then PAGE_SZ else entries[i].size;
      if off + chunk > |cipher| { chunk := |cipher| - off; }
      assert entries[i..][1..] == entries[i + 1..];
      assert cipher[off..][..chunk] == cipher[off..off + chunk] && cipher[off..][chunk..] == cipher[off + chunk..];
      var page := c.unseal(entries[i].page, cipher[off..off + chunk]);
      if page.None? { return None; }
      AfterAfter(plain, page.value, Opened(c, cipher[off + chunk..], entries[i + 1..]));
      plain := plain + page.value;
      off, i := off + chunk, i + 1;
    }
    assert plain + [] == plain;
    r := Some(plain);
  }

  /** Every entry from `i` on that starts inside the section opens. */
  ghost predicate PiecesOpen(c: Cipher, cipher: seq<byte>, entries: seq<Entry>, i: nat) {
    forall j :: i <= j < |entries| && StartOf(entries, j) < |cipher| ==> PieceOf(c, cipher, entries, j).Some?
  }

  /** The rest of a section decrypts exactly when every piece of it opens. */
  lemma {:induction false} OpenedWhen(c: Cipher, cipher: seq<byte>, entries: seq<Entry>, i: nat, off: nat)
    requires i <= |entries| && off == if StartOf(entries, i) < |cipher| then StartOf(entries, i) else |cipher|
    ensures Opened(c, cipher[off..], entries[i..]).Some? <==> PiecesOpen(c, cipher, entries, i)
    decreases |entries| - i
  {
    if off == |cipher| {
      forall j | i <= j < |entries| ensures StartOf(entries, j) >= |cipher| {
        StartsGrow(entries, i, j);
      }
    } else if i < |entries| {
      var end := StartOf(entries, i + 1);
      var next := if end < |cipher| then end else |cipher|;
      OpenedWhen(c, cipher, entries, i + 1, next);
      assert cipher[off..][..next - off] == cipher[off..next] && cipher[off..][next - off..] == cipher[next..];
      assert entries[i..][1..] == entries[i + 1..];
      assert PiecesOpen(c, cipher, entries, i) <==> PieceOf(c, cipher, entries, i).Some? && PiecesOpen(c, cipher, entries, i + 1);
    }
  }

  lemma {:induction false} StartsGrow(entries: seq<Entry>, i: nat, j: nat)
    requires i <= j <= |entries|
    ensures StartOf(entries, i) <= StartOf(entries, j)
  {
    if i < j {
      StartsGrow(entries, i, j - 1);
    }
  }

  /** What was decrypted so far, followed by the rest. */
  function After(plain: seq<byte>, rest: Option<seq<byte>>): Option<seq<byte>> {
    if rest.None? then None else Some(plain + rest.value)
  }

  lemma {:induction false} AfterNothing(r: Option<seq<byte>>)
    ensures After([], r) == r
  {
    assert r.Some? ==> [] + r.value == r.value;
  }

  lemma {:induction false} AfterAfter(a: seq<byte>, b: seq<byte>, r: Option<seq<byte>>)
    ensures After(a, After(b, r)) == After(a + b, r)
  {
    assert r.Some? ==> a + (b + r.value) == (a + b) + r.value;
  }

  /** The section decrypted from its first entry on; bytes past the last entry are not
      decrypted. */
  function Opened(c: Cipher, cipher: seq<byte>, entries: seq<Entry>): Option<seq<byte>>
    decreases |entries|
  {
    if entries == [] || cipher == [] then Some([])
    else
      var size := if entries[0].size == 0 then PAGE_SZ else entries[0].size;
      var n := if size > |cipher| then |cipher| else size;
      match c.unseal(entries[0].page, cipher[..n])
      case None => None
      case Some(page) => After(page, Opened(c, cipher[n..], entries[1..]))
  }

  /** Unsealing what was sealed gives it back. */
  lemma {:induction false} OpenedSealed(c: Cipher, data: seq<byte>, chunk: nat, iv: nat)
    requires c.Sound() && chunk > 0 && Whole(|data|, chunk)
    ensures Opened(c, SealFrom(c, data, chunk, iv), EntriesFrom(c, data, chunk, iv)) == Some(data)
    decreases |data|
  {
    if data != [] {
      OpenedSealed(c, data[chunk..], chunk, iv + 1);
      var page, rest := c.seal(BuildIv(iv), data[..chunk]).0, SealFrom(c, data[chunk..], chunk, iv + 1);
      assert (page + rest)[..chunk] == page && (page + rest)[chunk..] == rest;
      var es := EntriesFrom(c, data, chunk, iv);
      assert es[1..] == EntriesFrom(c, data[chunk..], chunk, iv + 1);
      assert data[..chunk] + data[chunk..] == data;
    }
  }

  /** A version 2 image round trip: restoring a range's combined sections and splitting
      them gives the captured sections, for every capture of the batch. */
  lemma {:induction false} CombinedRoundTrip(c: Cipher, caps: seq<Sections>, chunk: nat, iv: nat, i: nat, s: Sections)
    requires c.Sound() && chunk > 0 && AllWhole(caps, chunk) && i < |caps|
    requires Whole(|Gather(caps, i)|, chunk) && SealedAs(c, caps, i, chunk, iv, s)
    ensures var plain := Opened(c, s.cpu + s.gpu, s.entries);
            && plain.Some? && |plain.value| == |s.cpu| + |s.gpu|
            && plain.value[..|s.cpu|] == caps[i].cpu && plain.value[|s.cpu|..] == caps[i].gpu
  {
    OpenedSealed(c, Joined(caps[i]), chunk, FirstIv(caps, i, chunk, iv));
    hide Opened, SealFrom, EntriesFrom, Gather;
  }

  // ------------------------------------------------------------- split metadata

  /** The entries' sizes, as the shared metadata walk sees them. */
  function Sizes(es: seq<Entry>): (ms: seq<RestoreJobs.Meta>)
    ensures |ms| == |es| && forall i :: 0 <= i < |es| ==> ms[i].size == es[i].size
  {
    if es == [] then [] else Sizes(es[..|es| - 1]) + [RestoreJobs.Meta(es[|es| - 1].size, 0)]
  }

  lemma {:induction false} AccConcat(a: seq<Entry>, b: seq<Entry>, k: nat)
    requires k <= |a|
    ensures RestoreJobs.Acc(Sizes(a + b), k) == RestoreJobs.Acc(Sizes(a), k)
  {
    if k > 0 {
      AccConcat(a, b, k - 1);
    }
  }

  /** The reader's split: count entries while their sizes have not reached the GPU
      section's length. */
  method SplitEntries(es: seq<Entry>, gpuBytes: nat) returns (gpuCount: nat)
    ensures RestoreJobs.FirstReach(Sizes(es), 0, gpuBytes, gpuCount)
  {
    gpuCount := 0;
    var acc := 0;
    while gpuCount < |es| && acc < gpuBytes
      invariant gpuCount <= |es| && acc == RestoreJobs.Acc(Sizes(es), gpuCount)
      invariant forall i :: 0 <= i < gpuCount ==> RestoreJobs.Acc(Sizes(es), i) < gpuBytes
    {
      acc := acc + es[gpuCount].size;
      gpuCount := gpuCount + 1;
    }
  }

  /** The split finds the boundary the writer appended at exactly when the last GPU entry
      is not empty (and the GPU sizes add up to the GPU bytes). */
  lemma {:induction false} SplitExact(gpu: seq<Entry>, cpu: seq<Entry>, gpuBytes: nat, k: nat)
    requires RestoreJobs.Acc(Sizes(gpu), |gpu|) == gpuBytes
    requires RestoreJobs.FirstReach(Sizes(gpu + cpu), 0, gpuBytes, k)
    ensures k == |gpu| <==> gpu == [] || gpu[|gpu| - 1].size > 0
  {
    AccConcat(gpu, cpu, |gpu|);
    if gpu != [] {
      AccConcat(gpu, cpu, |gpu| - 1);
      AccConcat(gpu, cpu, if k < |gpu| then k else 0);
      if k < |gpu| {
        RestoreJobs.AccMono(Sizes(gpu), k, |gpu| - 1);
      }
    }
    hide Sizes;
  }

  // ---------------------------------------------------------------- CPU batches

  /** A capture without its GPU section, for the shared gather and scatter. */
  function CpuOnly(s: Sections): Sections { Sections(s.cpu, [], []) }

  function CpuCaptures(caps: seq<Sections>): (cs: seq<Sections>)
    ensures |cs| == |caps| && forall i :: 0 <= i < |caps| ==> cs[i] == CpuOnly(caps[i])
  {
    if caps == [] then [] else CpuCaptures(caps[..|caps| - 1]) + [CpuOnly(caps[|caps| - 1])]
  }

  /** Chunks of the CPU sections before capture `i`. */
  function CpuChunks(caps: seq<Sections>, i: nat, chunk: nat): nat
    requires chunk > 0 && i <= |caps| && forall k :: 0 <= k < |caps| ==> Whole(|caps[k].cpu|, chunk)
  {
    if i == 0 then 0 else CpuChunks(caps, i - 1, chunk) + Chunks(|caps[i - 1].cpu|, chunk)
  }

  /** The CPU section of capture `i` sealed under the counters from `iv` plus the chunks
      before it on, its entries behind the others. */
  ghost predicate CpuSealed(c: Cipher, caps: seq<Sections>, i: nat, chunk: nat, iv: nat, out: Sections)
    requires chunk > 0 && i < |caps| && forall k :: 0 <= k < |caps| ==> Whole(|caps[k].cpu|, chunk)
  {
    var base := iv + CpuChunks(caps, i, chunk);
    && out.gpu == caps[i].gpu && out.cpu == SealFrom(c, caps[i].cpu, chunk, base)
    && out.entries == caps[i].entries + EntriesFrom(c, caps[i].cpu, chunk, base)
  }

  /** No two captures share a counter, and all counters are below the next free one. */
  lemma {:induction false} CpuCountersApart(caps: seq<Sections>, i: nat, j: nat, chunk: nat)
    requires chunk > 0 && i < j <= |caps| && forall k :: 0 <= k < |caps| ==> Whole(|caps[k].cpu|, chunk)
    ensures CpuChunks(caps, i, chunk) + Chunks(|caps[i].cpu|, chunk) <= CpuChunks(caps, j, chunk)
  {
    if i < j - 1 {
      CpuCountersApart(caps, i, j - 1, chunk);
    }
  }

  /** The batch counts its chunks capture by capture. */
  lemma {:induction false} GatheredChunks(caps: seq<Sections>, only: seq<Sections>, n: nat, chunk: nat)
    requires chunk > 0 && |only| == |caps| && n <= |caps|
    requires forall k :: 0 <= k < |caps| ==> Whole(|caps[k].cpu|, chunk) && Joined(only[k]) == caps[k].cpu
    ensures Whole(|Gather(only, n)|, chunk) && Chunks(|Gather(only, n)|, chunk) == CpuChunks(caps, n, chunk)
  {
    hide Whole, Chunks;
    if n == 0 {
      NothingGathered(only, chunk);
    } else {
      GatheredChunks(caps, only, n - 1, chunk);
      ChunksSum(|Gather(only, n - 1)|, |caps[n - 1].cpu|, chunk);
    }
  }

  /** Encrypt the CPU sections only and append their entries behind the GPU entries. */
  method EncryptCpuPages(c: Cipher, caps: seq<Sections>, chunk: nat, iv: nat) returns (out: seq<Sections>, nextIv: nat)
    requires c.Sound() && chunk > 0 && forall i :: 0 <= i < |caps| ==> Whole(|caps[i].cpu|, chunk)
    ensures |out| == |caps| && forall i :: 0 <= i < |caps| ==> CpuSealed(c, caps, i, chunk, iv, out[i])
    ensures nextIv == iv + CpuChunks(caps, |caps|, chunk)
  {
    hide SealFrom, EntriesFrom, Whole, Gather;
    var only := CpuCaptures(caps);
    forall i | 0 <= i < |caps| ensures Joined(only[i]) == caps[i].cpu {
      assert only[i].cpu + [] == caps[i].cpu;
    }
    var sealed;
    sealed, nextIv := EncryptCaptures(c, only, chunk, iv);
    GatheredChunks(caps, only, |caps|, chunk);
    out := [];
    for i := 0 to |caps|
      invariant |out| == i && forall j :: 0 <= j < i ==> CpuSealed(c, caps, j, chunk, iv, out[j])
    {
      var s := Sections(sealed[i].cpu, caps[i].gpu, caps[i].entries + sealed[i].entries);
      CpuPart(c, caps, only, i, chunk, iv, sealed[i], s);
      out := out + [s];
      hide CpuSealed;
    }
  }

  lemma {:induction false} CpuPart(c: Cipher, caps: seq<Sections>, only: seq<Sections>, i: nat, chunk: nat, iv: nat, sealed: Sections, s: Sections)
    requires chunk > 0 && |only| == |caps| && i < |caps| && AllWhole(only, chunk)
    requires forall k :: 0 <= k < |caps| ==> Whole(|caps[k].cpu|, chunk) && only[k] == CpuOnly(caps[k])
    requires Whole(|Gather(only, i)|, chunk) && SealedAs(c, only, i, chunk, iv, sealed)
    requires s == Sections(sealed.cpu, caps[i].gpu, caps[i].entries + sealed.entries)
    ensures CpuSealed(c, caps, i, chunk, iv, s)
  {
    hide SealFrom, EntriesFrom, Whole, Gather, Chunks;
    var base := FirstIv(only, i, chunk, iv);
    forall k | 0 <= k < |caps| ensures Joined(only[k]) == caps[k].cpu {
      assert only[k].cpu + [] == caps[k].cpu;
    }
    GatheredChunks(caps, only, i, chunk);
    assert sealed.gpu == [] && Joined(sealed) == sealed.cpu;
    assert s.cpu == SealFrom(c, caps[i].cpu, chunk, base);
  }

  /** A version 3 image round trip: for a driver that inverts its own encryption, the
      split decryption gives back both captured sections. */
  lemma {:induction false} SplitRoundTrip(c: Cipher, driver: (seq<byte>, seq<Entry>) -> seq<byte>, gpuPlain: seq<byte>, gpuCipher: seq<byte>,
                                          gpuEntries: seq<Entry>, cpu: seq<byte>, chunk: nat, base: nat, k: nat)
    requires c.Sound() && chunk > 0 && Whole(|cpu|, chunk)
    requires RestoreJobs.Acc(Sizes(gpuEntries), |gpuEntries|) == |gpuCipher| && forall e :: e in gpuEntries ==> e.size > 0
    requires driver(gpuCipher, gpuEntries) == gpuPlain
    requires var stored := gpuEntries + EntriesFrom(c, cpu, chunk, base);
             RestoreJobs.FirstReach(Sizes(stored), 0, |gpuCipher|, k)
    ensures var stored := gpuEntries + EntriesFrom(c, cpu, chunk, base);
            && k <= |stored| && driver(gpuCipher, stored[..k]) == gpuPlain
            && Opened(c, SealFrom(c, cpu, chunk, base), stored[k..]) == Some(cpu)
  {
    var es := EntriesFrom(c, cpu, chunk, base);
    SplitExact(gpuEntries, es, |gpuCipher|, k);
    OpenedSealed(c, cpu, chunk, base);
    var stored := gpuEntries + es;
    assert stored[..k] == gpuEntries && stored[k..] == es;
    hide SealFrom, EntriesFrom, Opened, Sizes;
  }
}
