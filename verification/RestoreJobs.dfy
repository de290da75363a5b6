/** Cutting an allocation's ciphertext into decryption jobs along its metadata, and
    the serial v3 restore the jobs replace. */
module RestoreJobs {
  import Arith

  /** One transfer's crypto metadata: its size and the sealed key material. */
  datatype Meta = Meta(size: nat, seal: int)

  datatype Job = Job(byteOff: nat, byteSize: nat, cipherOff: nat, metaStart: nat, metaCount: nat)

  datatype Error = Misaligned | ZeroBytes

  datatype Result<T> = Ok(value: T) | Err(error: Error)

  /** Bytes of the first `k` transfers. */
  function Acc(ms: seq<Meta>, k: nat): nat
    requires k <= |ms|
  {
    if k == 0 then 0 else Acc(ms, k - 1) + ms[k - 1].size
  }

  lemma {:induction false} AccMono(ms: seq<Meta>, a: nat, b: nat)
    requires a <= b <= |ms|
    ensures Acc(ms, a) <= Acc(ms, b)
  {
    if a < b {
      AccMono(ms, a, b - 1);
    }
  }

  /** Some transfer starts, or the last one ends, at `offset`. */
  ghost predicate Boundary(ms: seq<Meta>, offset: nat) {
    exists k :: 0 <= k <= |ms| && Acc(ms, k) == offset
  }

  /** The first index at which at least `target` bytes have accumulated since
      `from`, or the end of the metadata. */
  ghost predicate FirstReach(ms: seq<Meta>, from: nat, target: nat, k: nat) {
    && from <= k <= |ms|
    && (k < |ms| ==> Acc(ms, k) >= Acc(ms, from) + target)
    && forall i :: from <= i < k ==> Acc(ms, i) < Acc(ms, from) + target
  }

  method Walk(ms: seq<Meta>, from: nat, target: nat) returns (k: nat, bytes: nat)
    requires from <= |ms|
    ensures FirstReach(ms, from, target, k)
    ensures bytes == Acc(ms, k) - Acc(ms, from)
  {
    k, bytes := from, 0;
    while k < |ms| && bytes < target
      invariant from <= k <= |ms|
      invariant bytes == Acc(ms, k) - Acc(ms, from)
      invariant forall i :: from <= i < k ==> Acc(ms, i) < Acc(ms, from) + target
    {
      bytes := bytes + ms[k].size;
      k := k + 1;
    }
  }

  /** A walk that runs out of metadata covers everything there is. */
  lemma {:induction false} ReachOrEnd(ms: seq<Meta>, from: nat, target: nat, k: nat)
    requires from <= |ms| && FirstReach(ms, from, target, k)
    ensures Acc(ms, k) >= Acc(ms, from) + target || k == |ms|
    ensures Acc(ms, |ms|) >= Acc(ms, from) + target <==> Acc(ms, k) >= Acc(ms, from) + target
  {
    AccMono(ms, k, |ms|);
  }

  /** A job covers the transfers metaStart .. metaStart + metaCount, whose bytes lie
      at the job's offsets; it stops at the first transfer end at or past its target. */
  ghost predicate JobOk(ms: seq<Meta>, offset: nat, size: nat, chunk: nat, gpuStart: nat, j: Job) {
    && j.metaStart + j.metaCount <= |ms|
    && Acc(ms, j.metaStart) == offset + j.byteOff
    && Acc(ms, j.metaStart + j.metaCount) == offset + j.byteOff + j.byteSize
    && j.cipherOff == gpuStart + offset + j.byteOff
    && j.byteSize > 0 && j.byteOff < size
    && FirstReach(ms, j.metaStart, Lesser(chunk, size - j.byteOff), j.metaStart + j.metaCount)
  }

  function Lesser(a: nat, b: nat): nat { if b < a then b else a }

  /** Each job starts where the one before it stops, in bytes and in metadata. */
  ghost predicate Linked(jobs: seq<Job>) {
    && (jobs != [] ==> jobs[0].byteOff == 0)
    && forall j :: 0 < j < |jobs| ==>
         && jobs[j].byteOff == jobs[j - 1].byteOff + jobs[j - 1].byteSize
         && jobs[j].metaStart == jobs[j - 1].metaStart + jobs[j - 1].metaCount
  }

  /** The jobs tile the allocation's ciphertext and metadata, without gap or overlap. */
  ghost predicate JobsTile(ms: seq<Meta>, offset: nat, size: nat, chunk: nat, gpuStart: nat, jobs: seq<Job>) {
    Linked(jobs) && forall j :: 0 <= j < |jobs| ==> JobOk(ms, offset, size, chunk, gpuStart, jobs[j])
  }

  function JobsEnd(jobs: seq<Job>): nat {
    if jobs == [] then 0 else jobs[|jobs| - 1].byteOff + jobs[|jobs| - 1].byteSize
  }

  /** The jobs of one allocation of `size` bytes, `offset` bytes into its range. They
      exist exactly when the allocation starts on a transfer boundary and the metadata
      reaches its end. */
  method PrecomputeJobs(ms: seq<Meta>, offset: nat, size: nat, chunk: nat, gpuStart: nat) returns (r: Result<seq<Job>>)
    requires chunk > 0
    ensures r.Ok? <==> Boundary(ms, offset) && (size == 0 || offset + size <= Acc(ms, |ms|))
    ensures r == Err(Misaligned) <==> !Boundary(ms, offset)
    ensures r.Ok? ==> JobsTile(ms, offset, size, chunk, gpuStart, r.value) && size <= JobsEnd(r.value)
  {
    var cur, acc := Walk(ms, 0, offset);
    if acc != offset {
      NotBoundary(ms, offset, cur);
      return Err(Misaligned);
    }
    assert Boundary(ms, offset);
    var done, jobs: seq<Job> := 0, [];
    assert JobsTile(ms, offset, size, chunk, gpuStart, jobs);
    hide FirstReach, JobsTile, Boundary;
    while done < size
      invariant cur <= |ms| && Acc(ms, cur) == offset + done
      invariant JobsTile(ms, offset, size, chunk, gpuStart, jobs) && done == JobsEnd(jobs)
      invariant jobs != [] ==> jobs[|jobs| - 1].metaStart + jobs[|jobs| - 1].metaCount == cur
      decreases size - done
    {
      var target := chunk;
      if size - done < target { target := size - done; }
      var end, bytes := Walk(ms, cur, target);
      ReachOrEnd(ms, cur, target, end);
      if bytes == 0 {
        return Err(ZeroBytes);
      }
      var job := Job(done, bytes, gpuStart + (offset + done), cur, end - cur);
      NextJob(ms, offset, size, chunk, gpuStart, jobs, done, job);
      jobs := jobs + [job];
      cur, done := end, done + bytes;
    }
    AccMono(ms, cur, |ms|);
    r := Ok(jobs);
  }

  lemma {:induction false} NextJob(ms: seq<Meta>, offset: nat, size: nat, chunk: nat, gpuStart: nat, jobs: seq<Job>, done: nat, j: Job)
    requires JobsTile(ms, offset, size, chunk, gpuStart, jobs) && done == JobsEnd(jobs)
    requires jobs != [] ==> jobs[|jobs| - 1].metaStart + jobs[|jobs| - 1].metaCount == j.metaStart
    requires done < size && j.byteOff == done && j.byteSize > 0 && j.cipherOff == gpuStart + (offset + done)
    requires j.metaStart + j.metaCount <= |ms| && Acc(ms, j.metaStart) == offset + done
    requires j.byteSize == Acc(ms, j.metaStart + j.metaCount) - Acc(ms, j.metaStart)
    requires FirstReach(ms, j.metaStart, Lesser(chunk, size - done), j.metaStart + j.metaCount)
    ensures JobsTile(ms, offset, size, chunk, gpuStart, jobs + [j])
  {
    hide FirstReach;
    assert JobOk(ms, offset, size, chunk, gpuStart, j);
    hide JobOk, Acc;
    LinkNext(jobs, j);
    hide Linked;
  }

  lemma {:induction false} LinkNext(jobs: seq<Job>, j: Job)
    requires Linked(jobs) && j.byteOff == JobsEnd(jobs)
    requires jobs != [] ==> jobs[|jobs| - 1].metaStart + jobs[|jobs| - 1].metaCount == j.metaStart
    ensures Linked(jobs + [j])
  {
  }

  lemma {:induction false} NotBoundary(ms: seq<Meta>, offset: nat, k: nat)
    requires FirstReach(ms, 0, offset, k) && Acc(ms, k) != offset
    ensures !Boundary(ms, offset)
  {
    if i :| 0 <= i <= |ms| && Acc(ms, i) == offset {
      if k <= i {
        AccMono(ms, k, i);
      }
    }
  }

  /** A job overshoots its target by less than its last transfer. */
  lemma {:induction false} JobSize(ms: seq<Meta>, offset: nat, size: nat, chunk: nat, gpuStart: nat, j: Job)
    requires JobOk(ms, offset, size, chunk, gpuStart, j) && chunk > 0
    ensures j.metaCount > 0 && j.byteSize < Lesser(chunk, size - j.byteOff) + ms[j.metaStart + j.metaCount - 1].size
  {
    var end := j.metaStart + j.metaCount;
    assert end > j.metaStart;
    assert Acc(ms, end) == Acc(ms, end - 1) + ms[end - 1].size;
  }

  /** A job that is not the last has its whole chunk of bytes. */
  lemma {:induction false} FullJob(ms: seq<Meta>, offset: nat, size: nat, chunk: nat, gpuStart: nat, jobs: seq<Job>, j: nat)
    requires chunk > 0 && JobsTile(ms, offset, size, chunk, gpuStart, jobs) && j + 1 < |jobs|
    ensures chunk <= jobs[j].byteSize && chunk < size - jobs[j].byteOff
  {
    assert JobOk(ms, offset, size, chunk, gpuStart, jobs[j]) && JobOk(ms, offset, size, chunk, gpuStart, jobs[j + 1]);
    assert jobs[j + 1].metaCount != 0;
  }

  /** The jobs of an allocation number at most its chunks, the last one rounded up. */
  lemma {:induction false} JobCount(ms: seq<Meta>, offset: nat, size: nat, chunk: nat, gpuStart: nat, jobs: seq<Job>)
    requires chunk > 0 && JobsTile(ms, offset, size, chunk, gpuStart, jobs)
    ensures |jobs| <= (size + chunk - 1) / chunk
  {
    if jobs != [] {
      var n := |jobs| - 1;
      JobsApart(ms, offset, size, chunk, gpuStart, jobs, n);
      assert JobOk(ms, offset, size, chunk, gpuStart, jobs[n]);
      hide JobsTile, JobOk;
      Quotients(jobs[n].byteOff, size - 1, chunk);
      assert size - 1 + chunk == size + chunk - 1;
    } else {
      Quotients(0, size + chunk - 1, chunk);
    }
  }

  lemma {:induction false} Quotients(a: nat, b: nat, d: nat)
    requires d > 0 && a <= b
    ensures a / d <= b / d && (b + d) / d == b / d + 1 && 0 <= b / d
  {
    Arith.DivMono(a, b, d);
    Arith.DivNext(b, d);
  }

  lemma {:induction false} JobsApart(ms: seq<Meta>, offset: nat, size: nat, chunk: nat, gpuStart: nat, jobs: seq<Job>, j: nat)
    requires chunk > 0 && JobsTile(ms, offset, size, chunk, gpuStart, jobs) && j < |jobs|
    ensures j <= jobs[j].byteOff / chunk
  {
    if j > 0 {
      JobsApart(ms, offset, size, chunk, gpuStart, jobs, j - 1);
      FullJob(ms, offset, size, chunk, gpuStart, jobs, j - 1);
      Quotients(jobs[j - 1].byteOff, jobs[j - 1].byteOff, chunk);
      Quotients(jobs[j - 1].byteOff + chunk, jobs[j].byteOff, chunk);
    } else {
      Quotients(0, jobs[0].byteOff, chunk);
    }
  }

  /** Every buffer of `chunk` bytes holds its job. */
  ghost predicate AllFit(jobs: seq<Job>, chunk: nat) {
    forall j :: 0 <= j < |jobs| ==> jobs[j].byteSize <= chunk
  }

  /** Transfers break at every whole number of chunks into the allocation, and some
      transfer ends between the allocation's end and the end of its last chunk. */
  ghost predicate BreaksAtChunks(ms: seq<Meta>, offset: nat, size: nat, chunk: nat)
    requires chunk > 0
  {
    && (forall x: nat :: 0 < x <= size && x % chunk == 0 ==> Boundary(ms, offset + x))
    && (size % chunk != 0 ==> exists k :: 0 <= k <= |ms| && offset + size <= Acc(ms, k) <= offset + size - size % chunk + chunk)
  }

  /** The job that holds the byte before `x`. */
  lemma {:induction false} JobAt(jobs: seq<Job>, x: nat) returns (j: nat)
    requires Linked(jobs) && 0 < x <= JobsEnd(jobs)
    ensures j < |jobs| && jobs[j].byteOff < x <= jobs[j].byteOff + jobs[j].byteSize
  {
    var n := |jobs| - 1;
    if jobs[n].byteOff < x {
      j := n;
    } else {
      assert jobs[..n][n - 1] == jobs[n - 1];
      j := JobAt(jobs[..n], x);
    }
  }

  lemma {:induction false} FittingStarts(ms: seq<Meta>, offset: nat, size: nat, chunk: nat, gpuStart: nat, jobs: seq<Job>, j: nat)
    requires chunk > 0 && JobsTile(ms, offset, size, chunk, gpuStart, jobs) && j < |jobs|
    requires forall i :: 0 <= i < j ==> jobs[i].byteSize <= chunk
    ensures jobs[j].byteOff % chunk == 0
  {
    if j > 0 {
      FittingStarts(ms, offset, size, chunk, gpuStart, jobs, j - 1);
      FullJob(ms, offset, size, chunk, gpuStart, jobs, j - 1);
      Arith.ModShift(jobs[j - 1].byteOff, 0, chunk);
    } else {
      Arith.DivUnique(0, 0, 0, chunk);
    }
  }

  /** Multiples `a` < `x` <= a + chunk are one chunk apart. */
  lemma {:induction false} NextMultiple(a: nat, x: nat, chunk: nat)
    requires chunk > 0 && a % chunk == 0 && a < x <= a + chunk
    ensures x % chunk == 0 <==> x == a + chunk
    ensures x - x % chunk == if x == a + chunk then x else a
  {
    Arith.ModShift(a, if x - a < chunk then x - a else 0, chunk);
  }

  lemma {:induction false} FitBreaks(ms: seq<Meta>, offset: nat, size: nat, chunk: nat, gpuStart: nat, jobs: seq<Job>)
    requires chunk > 0 && JobsTile(ms, offset, size, chunk, gpuStart, jobs) && size <= JobsEnd(jobs) && AllFit(jobs, chunk)
    ensures BreaksAtChunks(ms, offset, size, chunk)
  {
    hide FirstReach;
    forall x: nat | 0 < x <= size && x % chunk == 0 ensures Boundary(ms, offset + x) {
      var j := JobAt(jobs, x);
      FittingStarts(ms, offset, size, chunk, gpuStart, jobs, j);
      NextMultiple(jobs[j].byteOff, x, chunk);
      assert JobOk(ms, offset, size, chunk, gpuStart, jobs[j]);
      assert Acc(ms, jobs[j].metaStart + jobs[j].metaCount) == offset + x;
    }
    if size % chunk != 0 {
      assert size > 0 by { if size == 0 { Arith.DivUnique(0, 0, 0, chunk); } }
      var j := JobAt(jobs, size);
      FittingStarts(ms, offset, size, chunk, gpuStart, jobs, j);
      NextMultiple(jobs[j].byteOff, size, chunk);
      assert JobOk(ms, offset, size, chunk, gpuStart, jobs[j]);
      var k := jobs[j].metaStart + jobs[j].metaCount;
      assert offset + size <= Acc(ms, k) <= offset + size - size % chunk + chunk;
    }
  }

  /** A job stops no later than any transfer end at or past its target. */
  lemma {:induction false} StopsBy(ms: seq<Meta>, offset: nat, size: nat, chunk: nat, gpuStart: nat, j: Job, k: nat)
    requires JobOk(ms, offset, size, chunk, gpuStart, j) && k <= |ms|
    requires Acc(ms, k) >= offset + j.byteOff + Lesser(chunk, size - j.byteOff)
    ensures offset + j.byteOff + j.byteSize <= Acc(ms, k)
  {
    var end := j.metaStart + j.metaCount;
    if k < j.metaStart {
      AccMono(ms, k, j.metaStart);
    } else if k < end {
      assert false;
    } else {
      AccMono(ms, end, k);
    }
  }

  lemma {:induction false} BreaksFit(ms: seq<Meta>, offset: nat, size: nat, chunk: nat, gpuStart: nat, jobs: seq<Job>, j: nat)
    requires chunk > 0 && JobsTile(ms, offset, size, chunk, gpuStart, jobs) && BreaksAtChunks(ms, offset, size, chunk) && j < |jobs|
    ensures forall i :: 0 <= i <= j ==> jobs[i].byteSize <= chunk
  {
    hide FirstReach;
    if j > 0 {
      BreaksFit(ms, offset, size, chunk, gpuStart, jobs, j - 1);
    }
    FittingStarts(ms, offset, size, chunk, gpuStart, jobs, j);
    var job := jobs[j];
    assert JobOk(ms, offset, size, chunk, gpuStart, job);
    Arith.ModShift(job.byteOff, 0, chunk);
    if chunk <= size - job.byteOff {
      assert Boundary(ms, offset + (job.byteOff + chunk));
      var k :| 0 <= k <= |ms| && Acc(ms, k) == offset + (job.byteOff + chunk);
      StopsBy(ms, offset, size, chunk, gpuStart, job, k);
    } else {
      NextMultiple(job.byteOff, size, chunk);
      var k :| 0 <= k <= |ms| && offset + size <= Acc(ms, k) <= offset + size - size % chunk + chunk;
      StopsBy(ms, offset, size, chunk, gpuStart, job, k);
    }
  }

  /** The ring's buffers of one chunk hold every job of an allocation exactly when its
      transfers break at the chunks. */
  lemma {:induction false} JobsFitExactly(ms: seq<Meta>, offset: nat, size: nat, chunk: nat, gpuStart: nat, jobs: seq<Job>)
    requires chunk > 0 && JobsTile(ms, offset, size, chunk, gpuStart, jobs) && size <= JobsEnd(jobs)
    ensures AllFit(jobs, chunk) <==> BreaksAtChunks(ms, offset, size, chunk)
  {
    if AllFit(jobs, chunk) {
      FitBreaks(ms, offset, size, chunk, gpuStart, jobs);
    }
    if BreaksAtChunks(ms, offset, size, chunk) && jobs != [] {
      BreaksFit(ms, offset, size, chunk, gpuStart, jobs, |jobs| - 1);
    }
    hide JobsTile, BreaksAtChunks;
  }

  /** When the allocation also ends on a transfer boundary, the jobs end there. */
  lemma {:induction false} JobsEndAligned(ms: seq<Meta>, offset: nat, size: nat, chunk: nat, gpuStart: nat, jobs: seq<Job>)
    requires chunk > 0 && JobsTile(ms, offset, size, chunk, gpuStart, jobs) && size <= JobsEnd(jobs)
    requires Boundary(ms, offset + size)
    ensures JobsEnd(jobs) == size
  {
    if jobs != [] {
      var j := jobs[|jobs| - 1];
      assert JobOk(ms, offset, size, chunk, gpuStart, j);
      var k :| 0 <= k <= |ms| && Acc(ms, k) == offset + size;
      var end := j.metaStart + j.metaCount;
      if k < j.metaStart {
        AccMono(ms, k, j.metaStart);
      } else if end <= k {
        AccMono(ms, end, k);
      }
    }
  }

  // -------------------------------------------------------------- decryption

  /** The driver's decryption, one transfer at a time with its own metadata. */
  function Dec(d: (Meta, seq<int>) -> seq<int>, cipher: seq<int>, ms: seq<Meta>): seq<int>
    requires |cipher| == Acc(ms, |ms|)
    decreases |ms|
  {
    if ms == [] then []
    else
      var n := |ms| - 1;
      AccPrefix(ms, n, n);
      Dec(d, cipher[..Acc(ms, n)], ms[..n]) + d(ms[n], cipher[Acc(ms, n)..])
  }

  lemma {:induction false} AccPrefix(ms: seq<Meta>, n: nat, k: nat)
    requires k <= n <= |ms|
    ensures Acc(ms[..n], k) == Acc(ms, k)
  {
    if k > 0 {
      AccPrefix(ms, n, k - 1);
    }
  }

  lemma {:induction false} AccSlice(ms: seq<Meta>, a: nat, b: nat, k: nat)
    requires a + k <= b <= |ms|
    ensures Acc(ms[a..b], k) == Acc(ms, a + k) - Acc(ms, a)
  {
    if k > 0 {
      AccSlice(ms, a, b, k - 1);
    }
  }

  /** Decryption keeps the size of each transfer. */
  ghost predicate SizeKeeping(d: (Meta, seq<int>) -> seq<int>) {
    forall m: Meta, c: seq<int> :: |c| == m.size ==> |d(m, c)| == m.size
  }

  lemma {:induction false} DecLength(d: (Meta, seq<int>) -> seq<int>, cipher: seq<int>, ms: seq<Meta>)
    requires SizeKeeping(d) && |cipher| == Acc(ms, |ms|)
    ensures |Dec(d, cipher, ms)| == |cipher|
    decreases |ms|
  {
    if ms != [] {
      var n := |ms| - 1;
      AccPrefix(ms, n, n);
      DecLength(d, cipher[..Acc(ms, n)], ms[..n]);
    }
  }

  /** Decrypting a prefix of the transfers gives a prefix of the plaintext. */
  lemma {:induction false} DecPrefix(d: (Meta, seq<int>) -> seq<int>, cipher: seq<int>, ms: seq<Meta>, b: nat)
    requires SizeKeeping(d) && |cipher| == Acc(ms, |ms|) && b <= |ms|
    ensures Acc(ms, b) <= |cipher| == |Dec(d, cipher, ms)| && Acc(ms[..b], b) == Acc(ms, b)
    ensures Dec(d, cipher[..Acc(ms, b)], ms[..b]) == Dec(d, cipher, ms)[..Acc(ms, b)]
    decreases |ms|
  {
    AccMono(ms, b, |ms|);
    AccPrefix(ms, b, b);
    DecLength(d, cipher, ms);
    if b < |ms| {
      var n := |ms| - 1;
      AccPrefix(ms, n, n);
      AccPrefix(ms, n, b);
      AccMono(ms, b, n);
      DecPrefix(d, cipher[..Acc(ms, n)], ms[..n], b);
      DecLength(d, cipher[..Acc(ms, n)], ms[..n]);
      assert cipher[..Acc(ms, n)][..Acc(ms, b)] == cipher[..Acc(ms, b)];
      assert ms[..n][..b] == ms[..b];
    } else {
      assert cipher[..Acc(ms, b)] == cipher && ms[..b] == ms;
      assert Dec(d, cipher, ms)[..Acc(ms, b)] == Dec(d, cipher, ms);
    }
  }

  /** Decrypting the transfers a .. b gives the plaintext of their bytes. */
  lemma {:induction false} DecSlice(d: (Meta, seq<int>) -> seq<int>, cipher: seq<int>, ms: seq<Meta>, a: nat, b: nat)
    requires SizeKeeping(d) && |cipher| == Acc(ms, |ms|) && a <= b <= |ms|
    ensures Acc(ms, a) <= Acc(ms, b) <= |cipher| == |Dec(d, cipher, ms)|
    ensures Acc(ms[a..b], b - a) == Acc(ms, b) - Acc(ms, a)
    ensures Dec(d, cipher[Acc(ms, a)..Acc(ms, b)], ms[a..b]) == Dec(d, cipher, ms)[Acc(ms, a)..Acc(ms, b)]
    decreases b
  {
    AccMono(ms, a, b);
    AccMono(ms, b, |ms|);
    AccSlice(ms, a, b, b - a);
    DecLength(d, cipher, ms);
    if a < b {
      DecSliceStep(d, cipher, ms, a, b);
    }
  }

  lemma {:induction false} DecSliceStep(d: (Meta, seq<int>) -> seq<int>, cipher: seq<int>, ms: seq<Meta>, a: nat, b: nat)
    requires SizeKeeping(d) && |cipher| == Acc(ms, |ms|) && a < b <= |ms|
    requires Acc(ms, a) <= Acc(ms, b) <= |cipher| == |Dec(d, cipher, ms)|
    requires Acc(ms[a..b], b - a) == Acc(ms, b) - Acc(ms, a)
    ensures Dec(d, cipher[Acc(ms, a)..Acc(ms, b)], ms[a..b]) == Dec(d, cipher, ms)[Acc(ms, a)..Acc(ms, b)]
    decreases b, 0
  {
    hide Dec, SizeKeeping;
    var x, y, z := Acc(ms, a), Acc(ms, b - 1), Acc(ms, b);
    var whole := Dec(d, cipher, ms);
    DecSlice(d, cipher, ms, a, b - 1);
    LastTransfer(d, cipher, ms, a, b);
    hide Acc;
    PrefixStep(d, cipher, ms, b);
    SliceJoin(whole, x, y, z, d(ms[b - 1], cipher[y..z]));
  }

  lemma {:induction false} PrefixStep(d: (Meta, seq<int>) -> seq<int>, cipher: seq<int>, ms: seq<Meta>, b: nat)
    requires SizeKeeping(d) && |cipher| == Acc(ms, |ms|) && 0 < b <= |ms|
    ensures Acc(ms, b - 1) <= Acc(ms, b) <= |cipher| == |Dec(d, cipher, ms)|
    ensures Dec(d, cipher, ms)[..Acc(ms, b)]
         == Dec(d, cipher, ms)[..Acc(ms, b - 1)] + d(ms[b - 1], cipher[Acc(ms, b - 1)..Acc(ms, b)])
  {
    hide Dec, SizeKeeping;
    var y, z := Acc(ms, b - 1), Acc(ms, b);
    LastTransfer(d, cipher, ms, 0, b);
    DecPrefix(d, cipher, ms, b);
    DecPrefix(d, cipher, ms, b - 1);
    assert Acc(ms, 0) == 0;
    assert cipher[0..z] == cipher[..z] && ms[0..b] == ms[..b];
    assert cipher[0..y] == cipher[..y] && ms[0..b - 1] == ms[..b - 1];
  }

  lemma {:induction false} SliceJoin(w: seq<int>, x: nat, y: nat, z: nat, last: seq<int>)
    requires x <= y <= z <= |w| && w[..z] == w[..y] + last
    ensures w[x..z] == w[x..y] + last
  {
    assert w[..z][x..] == w[x..z] && w[..y][x..] == w[x..y];
    assert (w[..y] + last)[x..] == w[..y][x..] + last;
  }

  /** A slice of transfers decrypts its last transfer last. */
  lemma {:induction false} LastTransfer(d: (Meta, seq<int>) -> seq<int>, cipher: seq<int>, ms: seq<Meta>, a: nat, b: nat)
    requires |cipher| == Acc(ms, |ms|) && a < b <= |ms|
    ensures Acc(ms, a) <= Acc(ms, b - 1) <= Acc(ms, b) <= |cipher|
    ensures Acc(ms[a..b], b - a) == Acc(ms, b) - Acc(ms, a)
    ensures Acc(ms[a..b - 1], b - 1 - a) == Acc(ms, b - 1) - Acc(ms, a)
    ensures Dec(d, cipher[Acc(ms, a)..Acc(ms, b)], ms[a..b])
         == Dec(d, cipher[Acc(ms, a)..Acc(ms, b - 1)], ms[a..b - 1]) + d(ms[b - 1], cipher[Acc(ms, b - 1)..Acc(ms, b)])
  {
    AccMono(ms, a, b - 1);
    AccMono(ms, b, |ms|);
    AccSlice(ms, a, b, b - a);
    AccSlice(ms, a, b, b - 1 - a);
    AccSlice(ms, a, b - 1, b - 1 - a);
    var x, y, z := Acc(ms, a), Acc(ms, b - 1), Acc(ms, b);
    assert ms[a..b][..b - 1 - a] == ms[a..b - 1];
    assert cipher[x..z][..y - x] == cipher[x..y] && cipher[x..z][y - x..] == cipher[y..z];
  }
}
