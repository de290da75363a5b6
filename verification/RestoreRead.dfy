/** Reading image files back: headers, descriptor tables and section slices. A file
    may be longer than its image: what follows is never looked at. */
module RestoreRead {
  import opened Bytes
  import opened ImageFormat
  import opened PageMap

  const MAX_RANGES: nat := 256

  /** What the reader returns -1 for; `Undefined` is where it would read or write
      outside a buffer. */
  datatype Error = BadHeader | TooManyRanges | ShortRead | TooManyGroups | NotInGroup | Undefined

  datatype Result<T> = Ok(value: T) | Err(error: Error)

  function Word4(file: seq<byte>, at: nat): nat
    requires at + 4 <= |file|
  {
    FromLe(file[at..at + 4])
  }

  function Word8(file: seq<byte>, at: nat): nat
    requires at + 8 <= |file|
  {
    FromLe(file[at..at + 8])
  }

  function ReadDesc(file: seq<byte>, at: nat): Desc
    requires at + DESC_SIZE <= |file|
  {
    Desc(Word8(file, at), Word8(file, at + 8), Word8(file, at + 16), Word8(file, at + 24),
         Word8(file, at + 32), Word8(file, at + 40), Word8(file, at + 48), Word8(file, at + 56))
  }

  function ReadDescs(file: seq<byte>, at: nat, n: nat): (ds: seq<Desc>)
    requires at + DESC_SIZE * n <= |file|
    ensures |ds| == n
  {
    if n == 0 then [] else ReadDescs(file, at, n - 1) + [ReadDesc(file, at + DESC_SIZE * (n - 1))]
  }

  /** The baseline's descriptors; the version is not looked at. */
  function ParseBase(file: seq<byte>): Result<seq<Desc>> {
    if |file| < 24 || Word4(file, 0) != BASE_MAGIC then Err(BadHeader)
    else
      var n := Word4(file, 8);
      if n > MAX_RANGES then Err(TooManyRanges)
      else if 24 + DESC_SIZE * n > |file| then Err(ShortRead)
      else Ok(ReadDescs(file, 24, n))
  }

  function ParseDelta(file: seq<byte>): Result<seq<Desc>> {
    if |file| < 40 || Word4(file, 0) != DELTA_MAGIC then Err(BadHeader)
    else
      var n := Word4(file, 8);
      if 40 + DESC_SIZE * n > |file| then Err(ShortRead)
      else Ok(ReadDescs(file, 40, n))
  }

  /** A read of no bytes always succeeds. */
  predicate Readable(file: seq<byte>, at: nat, size: nat) {
    size == 0 || at + size <= |file|
  }

  function Slice(file: seq<byte>, at: nat, size: nat): (s: seq<byte>)
    requires Readable(file, at, size)
    ensures |s| == size
  {
    if size == 0 then [] else file[at..at + size]
  }

  predicate SectionsReadable(file: seq<byte>, d: Desc) {
    && Readable(file, d.dataOffset, d.resmapSize)
    && Readable(file, d.dataOffset + d.resmapSize, d.cpuBytes)
    && Readable(file, d.dataOffset + d.resmapSize + d.cpuBytes, d.gpuBytes)
  }

  /** The range a descriptor describes, as the restore reads it: no metadata. */
  function ReadCapture(file: seq<byte>, d: Desc): (c: Capture)
    requires SectionsReadable(file, d)
    ensures c.base == d.baseVa && c.length == d.length && |c.resmap| == d.resmapSize
  {
    Capture(d.baseVa, d.length, Slice(file, d.dataOffset, d.resmapSize),
            Slice(file, d.dataOffset + d.resmapSize, d.cpuBytes),
            Slice(file, d.dataOffset + d.resmapSize + d.cpuBytes, d.gpuBytes), [])
  }

  function Plain(c: Capture): Capture { c.(meta := []) }

  // -------------------------------------------------------------- round trip

  /** Every number that goes into a header or descriptor fits its field. */
  ghost predicate FitsFields(k: Kind, caps: seq<Capture>) {
    && U32(|caps|)
    && forall i :: 0 <= i < |caps| ==> FieldsFit(DescOf(caps[i], DataStart(k, |caps|) + SizeUpTo(caps, i)))
  }

  ghost predicate FieldsFit(d: Desc) {
    forall i :: 0 <= i < |Fields(d)| ==> U64(Fields(d)[i])
  }

  lemma {:induction false} ReadWrittenDesc(file: seq<byte>, at: nat, d: Desc)
    requires at + DESC_SIZE <= |file| && file[at..at + DESC_SIZE] == Words(Fields(d)) && FieldsFit(d)
    ensures ReadDesc(file, at) == d
  {
    var ws := Fields(d);
    forall i: nat | i < 8 ensures FromLe(file[at + 8 * i..at + 8 * i + 8]) == ws[i] {
      WordRead(ws, i);
      SubSlice(file, at, at + DESC_SIZE, 8 * i, 8 * i + 8);
    }
    hide Words, FromLe;
    assert Word8(file, at) == ws[0] by { assert at + 8 * 0 == at; }
    assert Word8(file, at + 8) == ws[1];
    assert Word8(file, at + 16) == ws[2];
    assert Word8(file, at + 24) == ws[3];
    assert Word8(file, at + 32) == ws[4];
    assert Word8(file, at + 40) == ws[5];
    assert Word8(file, at + 48) == ws[6];
    assert Word8(file, at + 56) == ws[7];
  }

  lemma {:induction false} ReadWrittenTable(file: seq<byte>, at: nat, ds: seq<Desc>, n: nat)
    requires n <= |ds| && at + DESC_SIZE * |ds| <= |file| && file[at..at + DESC_SIZE * |ds|] == Table(ds)
    requires forall i :: 0 <= i < |ds| ==> FieldsFit(ds[i])
    ensures ReadDescs(file, at, n) == ds[..n]
  {
    hide ReadDesc, Table, FieldsFit, Fields, Words;
    if n > 0 {
      ReadWrittenTable(file, at, ds, n - 1);
      DescInTable(ds, n - 1);
      var p := at + DESC_SIZE * (n - 1);
      SubSlice(file, at, at + DESC_SIZE * |ds|, DESC_SIZE * (n - 1), DESC_SIZE * (n - 1) + DESC_SIZE);
      ReadWrittenDesc(file, p, ds[n - 1]);
      assert ds[..n] == ds[..n - 1] + [ds[n - 1]];
    }
  }

  lemma {:induction false} SubSlice(file: seq<byte>, lo: nat, hi: nat, a: nat, b: nat)
    requires a <= b && lo + b <= hi <= |file|
    ensures file[lo..hi][a..b] == file[lo + a..lo + b]
  {
    forall i | 0 <= i < b - a ensures file[lo..hi][a..b][i] == file[lo + a..lo + b][i] {
      assert file[lo..hi][a + i] == file[lo + (a + i)];
    }
  }

  /** The parts of an image at the front of a file. */
  lemma {:induction false} ImageParts(k: Kind, caps: seq<Capture>, file: seq<byte>)
    requires Image(k, caps) <= file
    ensures var n := |caps|; var h := HeadSize(k);
            && DataStart(k, n) + SizeUpTo(caps, n) <= |file|
            && file[..h] == Head(k, n, LengthUpTo(caps, n))
            && file[h..h + DESC_SIZE * n] == Table(Descs(caps, DataStart(k, n), n))
            && file[DataStart(k, n)..DataStart(k, n) + SizeUpTo(caps, n)] == Bodies(caps, n)
  {
    hide Head, Table, Bodies, Descs, SizeUpTo, LengthUpTo;
    var n := |caps|;
    var head, table, data := Head(k, n, LengthUpTo(caps, n)), Table(Descs(caps, DataStart(k, n), n)), Bodies(caps, n);
    assert Image(k, caps) == head + table + data;
    assert |head| == HeadSize(k) && |table| == DESC_SIZE * n && |data| == SizeUpTo(caps, n);
    hide Image;
    ThreeParts(head, table, data, file);
  }

  lemma {:induction false} ThreeParts(x: seq<byte>, y: seq<byte>, z: seq<byte>, file: seq<byte>)
    requires x + y + z <= file
    ensures file[..|x|] == x && file[|x|..|x| + |y|] == y && file[|x| + |y|..|x| + |y| + |z|] == z
  {
    var all := x + y + z;
    assert file[..|all|] == all;
    assert all[..|x|] == x && all[|x|..|x| + |y|] == y && all[|x| + |y|..|x| + |y| + |z|] == z;
    assert file[..|x|] == file[..|all|][..|x|];
    assert file[|x|..|x| + |y|] == file[..|all|][|x|..|x| + |y|];
    assert file[|x| + |y|..|x| + |y| + |z|] == file[..|all|][|x| + |y|..|x| + |y| + |z|];
  }

  lemma {:induction false} HeadWords(k: Kind, n: nat, total: nat)
    requires U32(n)
    ensures FromLe(Head(k, n, total)[0..4]) == if k.Baseline? then BASE_MAGIC else DELTA_MAGIC
    ensures FromLe(Head(k, n, total)[8..12]) == n
  {
    SpanOf48();
    hide Le, FromLe, Span;
    LeRoundTrip(BASE_MAGIC, 4);
    LeRoundTrip(DELTA_MAGIC, 4);
    LeRoundTrip(n, 4);
    var head := Head(k, n, total);
    assert head[0..4] == if k.Baseline? then Le(BASE_MAGIC, 4) else Le(DELTA_MAGIC, 4);
    assert head[8..12] == Le(n, 4);
  }

  lemma {:induction false} WrittenWords(k: Kind, caps: seq<Capture>, file: seq<byte>)
    requires Image(k, caps) <= file && U32(|caps|)
    ensures HeadSize(k) + DESC_SIZE * |caps| <= |file|
    ensures Word4(file, 0) == (if k.Baseline? then BASE_MAGIC else DELTA_MAGIC) && Word4(file, 8) == |caps|
  {
    hide Head, Table, Image, Bodies, FromLe, Descs, SizeUpTo, LengthUpTo;
    ImageParts(k, caps, file);
    var head := Head(k, |caps|, LengthUpTo(caps, |caps|));
    HeadWords(k, |caps|, LengthUpTo(caps, |caps|));
    assert file[0..4] == head[0..4] && file[8..12] == head[8..12] by {
      assert file[..|head|][0..4] == file[0..4] && file[..|head|][8..12] == file[8..12];
    }
  }

  lemma {:induction false} WrittenTable(k: Kind, caps: seq<Capture>, file: seq<byte>)
    requires Image(k, caps) <= file && FitsFields(k, caps)
    ensures HeadSize(k) + DESC_SIZE * |caps| <= |file|
    ensures ReadDescs(file, HeadSize(k), |caps|) == Descs(caps, DataStart(k, |caps|), |caps|)
  {
    hide Head, Table, Image, Bodies, FieldsFit, FitsFields, Descs, SizeUpTo, LengthUpTo, ReadDescs;
    var ds := Descs(caps, DataStart(k, |caps|), |caps|);
    DescsFit(k, caps);
    ImageParts(k, caps, file);
    ReadWrittenTable(file, HeadSize(k), ds, |caps|);
    assert ds[..|caps|] == ds;
  }

  lemma {:induction false} DescsFit(k: Kind, caps: seq<Capture>)
    requires FitsFields(k, caps)
    ensures var ds := Descs(caps, DataStart(k, |caps|), |caps|);
            forall i :: 0 <= i < |ds| ==> FieldsFit(ds[i])
  {
    hide FieldsFit, DataStart, DescOf;
    forall i | 0 <= i < |caps| ensures FieldsFit(Descs(caps, DataStart(k, |caps|), |caps|)[i]) {
      DescAt(caps, DataStart(k, |caps|), |caps|, i);
    }
  }

  /** Parsing a written image, with or without a stale tail, gives back the
      descriptors it was written with. */
  lemma {:induction false} ParseWritten(k: Kind, caps: seq<Capture>, file: seq<byte>)
    requires Image(k, caps) <= file && FitsFields(k, caps)
    requires k.Baseline? ==> |caps| <= MAX_RANGES
    ensures (if k.Baseline? then ParseBase(file) else ParseDelta(file)) == Ok(Descs(caps, DataStart(k, |caps|), |caps|))
  {
    WrittenWords(k, caps, file);
    WrittenTable(k, caps, file);
    hide Image, Descs, FitsFields, Word4, ReadDescs, DataStart;
  }

  lemma {:induction false} BodyInFile(k: Kind, caps: seq<Capture>, file: seq<byte>, i: nat)
    requires Image(k, caps) <= file && i < |caps|
    ensures var at := DataStart(k, |caps|) + SizeUpTo(caps, i);
            at + BodySize(caps[i]) <= |file| && file[at..at + BodySize(caps[i])] == Body(caps[i])
  {
    hide Head, Table, Image, Bodies, Descs, DataStart, Body, BodySize;
    ImageParts(k, caps, file);
    BodyInBodies(caps, |caps|, i);
    hide SizeUpTo;
    var start := DataStart(k, |caps|);
    SubSlice(file, start, start + SizeUpTo(caps, |caps|), SizeUpTo(caps, i), SizeUpTo(caps, i) + BodySize(caps[i]));
  }

  /** Reading range `i` back gives the sections it was captured with. */
  lemma {:induction false} ReadWritten(k: Kind, caps: seq<Capture>, file: seq<byte>, i: nat)
    requires Image(k, caps) <= file && i < |caps|
    ensures Descs(caps, DataStart(k, |caps|), |caps|)[i] == DescOf(caps[i], DataStart(k, |caps|) + SizeUpTo(caps, i))
    ensures var d := DescOf(caps[i], DataStart(k, |caps|) + SizeUpTo(caps, i));
            SectionsReadable(file, d) && ReadCapture(file, d) == Plain(caps[i])
  {
    hide Image, DataStart, Body, SectionsReadable, ReadCapture;
    DescAt(caps, DataStart(k, |caps|), |caps|, i);
    BodyInFile(k, caps, file, i);
    hide Descs, SizeUpTo;
    BodySlices(file, DataStart(k, |caps|) + SizeUpTo(caps, i), caps[i]);
  }

  lemma {:induction false} BodySlices(file: seq<byte>, at: nat, c: Capture)
    requires at + BodySize(c) <= |file| && file[at..at + BodySize(c)] == Body(c)
    ensures SectionsReadable(file, DescOf(c, at)) && ReadCapture(file, DescOf(c, at)) == Plain(c)
  {
    var p, q, r := |c.resmap|, |c.resmap| + |c.cpu|, |c.resmap| + |c.cpu| + |c.gpu|;
    var b := Body(c);
    assert b[..p] == c.resmap && b[p..q] == c.cpu && b[q..r] == c.gpu;
    SubSlice(file, at, at + BodySize(c), 0, p);
    SubSlice(file, at, at + BodySize(c), p, q);
    SubSlice(file, at, at + BodySize(c), q, r);
  }
}
