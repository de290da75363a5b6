/** The baseline and delta image files: header, descriptor table, and per range the
    residency map with the packed CPU, GPU and crypto-metadata sections. */
module ImageFormat {
  import opened Bytes

  /** One captured range; the residency map has one byte per page. */
  datatype Capture = Capture(base: nat, length: nat, resmap: seq<byte>, cpu: seq<byte>, gpu: seq<byte>, meta: seq<byte>)

  datatype Desc = Desc(baseVa: nat, length: nat, numPages: nat, dataOffset: nat,
                       resmapSize: nat, cpuBytes: nat, gpuBytes: nat, metaBytes: nat)

  /** Baseline and delta files differ in their header only. */
  datatype Kind = Baseline(version: nat) | Delta(allocStart: nat, allocSize: nat, dirty64k: nat)

  const BASE_MAGIC: nat := 0xC2C2_C2C2
  const DELTA_MAGIC: nat := 0xDE17_A001
  const DELTA_VERSION: nat := 1
  const PAGE_SIZE: nat := 4096
  const DESC_SIZE: nat := 64

  function BodySize(c: Capture): nat {
    |c.resmap| + |c.cpu| + |c.gpu| + |c.meta|
  }

  function Body(c: Capture): (b: seq<byte>)
    ensures |b| == BodySize(c)
  {
    c.resmap + c.cpu + c.gpu + c.meta
  }

  function SizeUpTo(caps: seq<Capture>, n: nat): nat
    requires n <= |caps|
  {
    if n == 0 then 0 else SizeUpTo(caps, n - 1) + BodySize(caps[n - 1])
  }

  function LengthUpTo(caps: seq<Capture>, n: nat): nat
    requires n <= |caps|
  {
    if n == 0 then 0 else LengthUpTo(caps, n - 1) + caps[n - 1].length
  }

  function Bodies(caps: seq<Capture>, n: nat): (b: seq<byte>)
    requires n <= |caps|
    ensures |b| == SizeUpTo(caps, n)
  {
    if n == 0 then [] else Bodies(caps, n - 1) + Body(caps[n - 1])
  }

  function DescOf(c: Capture, offset: nat): Desc {
    Desc(c.base, c.length, |c.resmap|, offset, |c.resmap|, |c.cpu|, |c.gpu|, |c.meta|)
  }

  function Descs(caps: seq<Capture>, start: nat, n: nat): (ds: seq<Desc>)
    requires n <= |caps|
    ensures |ds| == n
  {
    if n == 0 then []
    else Descs(caps, start, n - 1) + [DescOf(caps[n - 1], start + SizeUpTo(caps, n - 1))]
  }

  function Fields(d: Desc): seq<nat> {
    [d.baseVa, d.length, d.numPages, d.dataOffset, d.resmapSize, d.cpuBytes, d.gpuBytes, d.metaBytes]
  }

  function Table(ds: seq<Desc>): (b: seq<byte>)
    ensures |b| == DESC_SIZE * |ds|
  {
    if ds == [] then [] else Table(ds[..|ds| - 1]) + Words(Fields(ds[|ds| - 1]))
  }

  function HeadSize(k: Kind): nat {
    if k.Baseline? then 24 else 40
  }

  function Head(k: Kind, n: nat, total: nat): (b: seq<byte>)
    ensures |b| == HeadSize(k)
  {
    match k
    case Baseline(version) =>
      Le(BASE_MAGIC, 4) + Le(version, 4) + Le(n, 4) + Le(PAGE_SIZE, 4) + Le(total, 8)
    case Delta(start, size, dirty) =>
      Le(DELTA_MAGIC, 4) + Le(DELTA_VERSION, 4) + Le(n, 4) + Le(PAGE_SIZE, 4) + Words([start, size, dirty])
  }

  /** Where the range data starts. */
  function DataStart(k: Kind, n: nat): nat {
    HeadSize(k) + DESC_SIZE * n
  }

  /** The whole file. */
  function Image(k: Kind, caps: seq<Capture>): (b: seq<byte>)
    ensures |b| == DataStart(k, |caps|) + SizeUpTo(caps, |caps|)
  {
    var n := |caps|;
    Head(k, n, LengthUpTo(caps, n)) + Table(Descs(caps, DataStart(k, n), n)) + Bodies(caps, n)
  }

  // ----------------------------------------------------------------- writers

  method Memcpy(dst: array<byte>, pos: nat, src: seq<byte>)
    requires pos + |src| <= dst.Length
    modifies dst
    ensures forall x :: 0 <= x < dst.Length ==> dst[x] == if pos <= x < pos + |src| then src[x - pos] else old(dst[x])
    ensures dst[..pos + |src|] == old(dst[..pos]) + src
  {
    for i := 0 to |src|
      invariant forall x :: 0 <= x < dst.Length ==> dst[x] == if pos <= x < pos + i then src[x - pos] else old(dst[x])
    {
      dst[pos + i] := src[i];
    }
  }

  /** The descriptor loop shared by the writers: running offset and total length. */
  method FillDescs(k: Kind, caps: seq<Capture>) returns (ds: seq<Desc>, total: nat, end: nat)
    ensures ds == Descs(caps, DataStart(k, |caps|), |caps|)
    ensures total == LengthUpTo(caps, |caps|) && end == |Image(k, caps)|
  {
    hide Image;
    var start := DataStart(k, |caps|);
    hide DataStart;
    ds, total, end := [], 0, start;
    for i := 0 to |caps|
      invariant ds == Descs(caps, start, i)
      invariant total == LengthUpTo(caps, i) && end == start + SizeUpTo(caps, i)
    {
      ds := ds + [DescOf(caps[i], end)];
      end := end + |caps[i].resmap| + |caps[i].cpu| + |caps[i].gpu| + |caps[i].meta|;
      total := total + caps[i].length;
    }
  }

  /** Assemble the baseline in one zero-padded buffer, section by section. */
  method WriteBaseline(caps: seq<Capture>, version: nat) returns (img: array<byte>, size: nat)
    ensures fresh(img) && size <= img.Length && img.Length % 4096 == 0 && img.Length < size + 4096
    ensures img[..size] == Image(Baseline(version), caps)
    ensures forall x :: size <= x < img.Length ==> img[x] == 0
  {
    var k := Baseline(version);
    var n := |caps|;
    var ds, total, end := FillDescs(k, caps);
    var aligned := AlignUp(end);
    size := end;
    img := new byte[aligned](_ => 0);
    var pos := CopyFront(img, Head(k, n, total), Table(ds));
    ghost var front := Head(k, n, total) + Table(ds);
    assert Image(k, caps) == front + Bodies(caps, n);
    NoBodies(front, caps);
    hide Head, Table, Image, Body, Bodies, BodySize, SizeUpTo;
    for i := 0 to n
      invariant pos == |front| + SizeUpTo(caps, i)
      invariant pos <= img.Length && img[..pos] == front + Bodies(caps, i)
      invariant forall x :: size <= x < img.Length ==> img[x] == 0
    {
      SizeMono(caps, i + 1, n);
      NextBody(front, caps, i);
      pos := CopyBody(img, pos, caps[i]);
    }
  }

  method AlignUp(x: nat) returns (r: nat)
    ensures x <= r < x + 4096 && r % 4096 == 0
  {
    r := (x + 4095) / 4096 * 4096;
  }

  lemma {:induction false} NextBody(front: seq<byte>, caps: seq<Capture>, i: nat)
    requires i < |caps|
    ensures (front + Bodies(caps, i)) + Body(caps[i]) == front + Bodies(caps, i + 1)
    ensures SizeUpTo(caps, i + 1) == SizeUpTo(caps, i) + BodySize(caps[i])
  {
  }

  method CopyFront(img: array<byte>, head: seq<byte>, table: seq<byte>) returns (pos: nat)
    requires |head| + |table| <= img.Length
    modifies img
    ensures pos == |head| + |table| && img[..pos] == head + table
    ensures forall x :: pos <= x < img.Length ==> img[x] == old(img[x])
  {
    Memcpy(img, 0, head);
    Memcpy(img, |head|, table);
    pos := |head| + |table|;
  }

  /** Copy the four sections of one range, one after the other. */
  method CopyBody(img: array<byte>, at: nat, c: Capture) returns (pos: nat)
    requires at + BodySize(c) <= img.Length
    modifies img
    ensures pos == at + BodySize(c)
    ensures img[..pos] == old(img[..at]) + Body(c)
    ensures forall x :: pos <= x < img.Length ==> img[x] == old(img[x])
  {
    hide Body;
    ghost var head := img[..at];
    pos := at;
    Memcpy(img, pos, c.resmap);
    pos := pos + |c.resmap|;
    Memcpy(img, pos, c.cpu);
    pos := pos + |c.cpu|;
    Memcpy(img, pos, c.gpu);
    pos := pos + |c.gpu|;
    Memcpy(img, pos, c.meta);
    pos := pos + |c.meta|;
    FourSections(head, c);
  }

  lemma {:induction false} FourSections(head: seq<byte>, c: Capture)
    ensures head + c.resmap + c.cpu + c.gpu + c.meta == head + Body(c)
  {
  }

  /** Write the delta front to back. */
  method WriteDelta(caps: seq<Capture>, allocStart: nat, allocSize: nat, dirty64k: nat) returns (file: seq<byte>)
    ensures file == Image(Delta(allocStart, allocSize, dirty64k), caps)
  {
    var k := Delta(allocStart, allocSize, dirty64k);
    var ds, total, end := FillDescs(k, caps);
    file := Head(k, |caps|, total) + Table(ds);
    ghost var front := file;
    assert Image(k, caps) == front + Bodies(caps, |caps|);
    hide Image, Head, Table, Body, Bodies, BodySize;
    assert file == front + Bodies(caps, 0) by { NoBodies(front, caps); }
    for i := 0 to |caps|
      invariant file == front + Bodies(caps, i)
    {
      NextBody(front, caps, i);
      FourSections(file, caps[i]);
      file := file + caps[i].resmap;
      file := file + caps[i].cpu;
      file := file + caps[i].gpu;
      file := file + caps[i].meta;
    }
  }

  lemma {:induction false} NoBodies(front: seq<byte>, caps: seq<Capture>)
    ensures front + Bodies(caps, 0) == front && SizeUpTo(caps, 0) == 0
  {
  }

  lemma {:induction false} SizeMono(caps: seq<Capture>, m: nat, n: nat)
    requires m <= n <= |caps|
    ensures SizeUpTo(caps, m) <= SizeUpTo(caps, n)
  {
    if m < n {
      SizeMono(caps, m, n - 1);
    }
  }

  // ----------------------------------------------------------------- layout

  lemma {:induction false} DescAt(caps: seq<Capture>, start: nat, n: nat, i: nat)
    requires i < n <= |caps|
    ensures Descs(caps, start, n)[i] == DescOf(caps[i], start + SizeUpTo(caps, i))
  {
    if i < n - 1 {
      DescAt(caps, start, n - 1, i);
    }
  }

  /** The sections of range `i` lie at its descriptor's offset. */
  lemma {:induction false} BodyInBodies(caps: seq<Capture>, n: nat, i: nat)
    requires i < n <= |caps|
    ensures SizeUpTo(caps, i) + BodySize(caps[i]) <= SizeUpTo(caps, n)
    ensures Bodies(caps, n)[SizeUpTo(caps, i)..SizeUpTo(caps, i) + BodySize(caps[i])] == Body(caps[i])
  {
    hide Body, BodySize;
    SizeMono(caps, i + 1, n);
    if i < n - 1 {
      BodyInBodies(caps, n - 1, i);
      SizeMono(caps, i + 1, n - 1);
      SliceOfFront(Bodies(caps, n - 1), Body(caps[n - 1]), SizeUpTo(caps, i), SizeUpTo(caps, i) + BodySize(caps[i]));
    }
  }

  lemma {:induction false} SliceOfFront(a: seq<byte>, b: seq<byte>, lo: nat, hi: nat)
    requires lo <= hi <= |a|
    ensures (a + b)[lo..hi] == a[lo..hi]
  {
  }

  /** The i-th descriptor's bytes in the table. */
  lemma {:induction false} DescInTable(ds: seq<Desc>, i: nat)
    requires i < |ds|
    ensures Table(ds)[DESC_SIZE * i..DESC_SIZE * i + DESC_SIZE] == Words(Fields(ds[i]))
  {
    var n := |ds| - 1;
    if i < n {
      DescInTable(ds[..n], i);
      SliceOfFront(Table(ds[..n]), Words(Fields(ds[n])), DESC_SIZE * i, DESC_SIZE * i + DESC_SIZE);
    }
  }

  /** Range `i` has its sections in place, when the range data starts at `start`. */
  ghost predicate BodyWritten(img: seq<byte>, start: nat, caps: seq<Capture>, i: nat)
    requires i < |caps|
  {
    var at := start + SizeUpTo(caps, i);
    at + BodySize(caps[i]) <= |img| && img[at..at + BodySize(caps[i])] == Body(caps[i])
  }

  /** Every range's sections in place make the data part of the image. */
  lemma {:induction false} AssembleBodies(img: seq<byte>, start: nat, caps: seq<Capture>, n: nat)
    requires n <= |caps| && start + SizeUpTo(caps, |caps|) <= |img|
    requires forall i :: 0 <= i < |caps| ==> BodyWritten(img, start, caps, i)
    ensures start + SizeUpTo(caps, n) <= |img| && img[start..start + SizeUpTo(caps, n)] == Bodies(caps, n)
  {
    hide Body, BodySize;
    SizeMono(caps, n, |caps|);
    if n > 0 {
      AssembleBodies(img, start, caps, n - 1);
      assert BodyWritten(img, start, caps, n - 1);
      var a, b := start + SizeUpTo(caps, n - 1), start + SizeUpTo(caps, n);
      assert img[start..b] == img[start..a] + img[a..b];
    }
  }
}
