/** The two ways to restore an allocation of a v3 image: one serial decryption of its
    slice, or the jobs of the ring copied one by one. */
module RestoreV3 {
  import opened RestoreJobs
  import RestoreRing

  /** A range's GPU section in the base image file, with its transfer metadata. */
  datatype Section = Section(file: seq<int>, gpuStart: nat, metas: seq<Meta>) {
    ghost predicate Valid() { gpuStart + Acc(metas, |metas|) <= |file| }

    function Cipher(): seq<int>
      requires Valid()
    {
      file[gpuStart..gpuStart + Acc(metas, |metas|)]
    }
  }

  function Plain(d: (Meta, seq<int>) -> seq<int>, s: Section): seq<int>
    requires s.Valid()
  {
    Dec(d, s.Cipher(), s.metas)
  }

  /** What the serial path decrypts and copies: transfers start .. end. It refuses an
      allocation whose start or end is not a transfer boundary. */
  method SerialSlice(ms: seq<Meta>, offset: nat, copySize: nat) returns (r: Result<(nat, nat)>)
    ensures r.Ok? <==> Boundary(ms, offset) && Boundary(ms, offset + copySize)
    ensures r.Ok? ==> r.value.0 <= r.value.1 <= |ms|
                      && Acc(ms, r.value.0) == offset && Acc(ms, r.value.1) == offset + copySize
  {
    var start, acc := Walk(ms, 0, offset);
    if acc != offset {
      NotBoundary(ms, offset, start);
      return Err(Misaligned);
    }
    var end, slice := Walk(ms, start, copySize);
    if slice != copySize {
      NotEndBoundary(ms, offset, copySize, start, end);
      return Err(Misaligned);
    }
    r := Ok((start, end));
  }

  lemma {:induction false} NotEndBoundary(ms: seq<Meta>, offset: nat, copySize: nat, start: nat, end: nat)
    requires start <= |ms| && Acc(ms, start) == offset
    requires FirstReach(ms, start, copySize, end) && Acc(ms, end) != offset + copySize
    ensures !Boundary(ms, offset + copySize)
  {
    if i :| 0 <= i <= |ms| && Acc(ms, i) == offset + copySize {
      if i < start {
        AccMono(ms, i, start);
        AccMono(ms, start, end);
      } else if end <= i {
        AccMono(ms, end, i);
      }
    }
  }

  lemma {:induction false} SliceOfSlice(file: seq<int>, lo: nat, hi: nat, a: nat, b: nat)
    requires a <= b && lo + b <= hi <= |file|
    ensures file[lo..hi][a..b] == file[lo + a..lo + b]
  {
    forall i | 0 <= i < b - a ensures file[lo..hi][a..b][i] == file[lo + a..lo + b][i] {
      assert file[lo..hi][a + i] == file[lo + (a + i)];
    }
  }

  lemma {:induction false} SerialPlain(d: (Meta, seq<int>) -> seq<int>, s: Section, offset: nat, copySize: nat, start: nat, end: nat)
    requires s.Valid() && SizeKeeping(d) && start <= end <= |s.metas|
    requires Acc(s.metas, start) == offset && Acc(s.metas, end) == offset + copySize
    ensures offset + copySize <= |Plain(d, s)| && s.gpuStart + offset + copySize <= |s.file|
    ensures Acc(s.metas[start..end], end - start) == copySize
    ensures Dec(d, s.file[s.gpuStart + offset..s.gpuStart + offset + copySize], s.metas[start..end])
         == Plain(d, s)[offset..offset + copySize]
  {
    hide Dec, SizeKeeping, Acc;
    DecSlice(d, s.Cipher(), s.metas, start, end);
    SliceOfSlice(s.file, s.gpuStart, s.gpuStart + Acc(s.metas, |s.metas|), offset, offset + copySize);
  }

  /** A job's decryption is its part of the range's plaintext. */
  lemma {:induction false} JobPlain(d: (Meta, seq<int>) -> seq<int>, s: Section, offset: nat, size: nat, chunk: nat, j: Job)
    requires s.Valid() && SizeKeeping(d) && JobOk(s.metas, offset, size, chunk, s.gpuStart, j)
    ensures offset + j.byteOff + j.byteSize <= |Plain(d, s)| && j.cipherOff + j.byteSize <= |s.file|
    ensures Acc(s.metas[j.metaStart..j.metaStart + j.metaCount], j.metaCount) == j.byteSize
    ensures Dec(d, s.file[j.cipherOff..j.cipherOff + j.byteSize], s.metas[j.metaStart..j.metaStart + j.metaCount])
         == Plain(d, s)[offset + j.byteOff..offset + j.byteOff + j.byteSize]
  {
    hide Dec, SizeKeeping, Acc, FirstReach;
    SerialPlain(d, s, offset + j.byteOff, j.byteSize, j.metaStart, j.metaStart + j.metaCount);
  }

  /** How much of a job's buffer the consumer copies into an allocation of `newSize`. */
  function CopyLimit(j: Job, newSize: nat): (n: nat)
    ensures n <= j.byteSize
  {
    if j.byteOff + j.byteSize > newSize then (if j.byteOff >= newSize then 0 else newSize - j.byteOff) else j.byteSize
  }

  /** Byte `x` of the new allocation after the first `k` jobs were copied into it. */
  function DevByte(before: nat -> int, jobs: seq<Job>, copied: seq<seq<int>>, k: nat, x: nat): int
    requires k <= |jobs| && k <= |copied|
  {
    if k == 0 then before(x)
    else if jobs[k - 1].byteOff <= x < jobs[k - 1].byteOff + |copied[k - 1]| then copied[k - 1][x - jobs[k - 1].byteOff]
    else DevByte(before, jobs, copied, k - 1, x)
  }

  ghost predicate JobInSection(s: Section, j: Job) {
    && j.metaStart + j.metaCount <= |s.metas| && j.cipherOff + j.byteSize <= |s.file|
    && Acc(s.metas[j.metaStart..j.metaStart + j.metaCount], j.metaCount) == j.byteSize
  }

  /** What a worker decrypts for a job: the job's slice of the mapped file. */
  ghost function JobBuffer(d: (Meta, seq<int>) -> seq<int>, s: Section, j: Job): seq<int>
    requires JobInSection(s, j)
  {
    Dec(d, s.file[j.cipherOff..j.cipherOff + j.byteSize], s.metas[j.metaStart..j.metaStart + j.metaCount])
  }

  /** The consumer copied, for each job, the allowed part of its decryption. */
  ghost predicate Delivered(d: (Meta, seq<int>) -> seq<int>, s: Section, jobs: seq<Job>, copied: seq<seq<int>>, newSize: nat) {
    |copied| == |jobs| && forall j :: 0 <= j < |jobs| ==>
      && JobInSection(s, jobs[j]) && |JobBuffer(d, s, jobs[j])| == jobs[j].byteSize
      && copied[j] == JobBuffer(d, s, jobs[j])[..CopyLimit(jobs[j], newSize)]
  }

  /** Copied part of a job, as plaintext at the job's place. */
  ghost predicate PartOf(plain: seq<int>, offset: nat, j: Job, copied: seq<int>, newSize: nat) {
    && |copied| == CopyLimit(j, newSize) && offset + j.byteOff + j.byteSize <= |plain|
    && forall y :: 0 <= y < |copied| ==> copied[y] == plain[offset + j.byteOff + y]
  }

  lemma {:induction false} DeliveredParts(d: (Meta, seq<int>) -> seq<int>, s: Section, offset: nat, size: nat, chunk: nat,
                       jobs: seq<Job>, copied: seq<seq<int>>, newSize: nat, j: nat)
    requires s.Valid() && SizeKeeping(d) && j < |jobs| && JobOk(s.metas, offset, size, chunk, s.gpuStart, jobs[j])
    requires Delivered(d, s, jobs, copied, newSize)
    ensures PartOf(Plain(d, s), offset, jobs[j], copied[j], newSize)
  {
    hide JobOk, SizeKeeping, Dec, Acc, Plain;
    assert JobInSection(s, jobs[j]) && copied[j] == JobBuffer(d, s, jobs[j])[..CopyLimit(jobs[j], newSize)];
    hide Delivered;
    JobPlain(d, s, offset, size, chunk, jobs[j]);
    var o := offset + jobs[j].byteOff;
    FrontOfSlice(Plain(d, s), o, o + jobs[j].byteSize, CopyLimit(jobs[j], newSize));
  }

  lemma {:induction false} FrontOfSlice(plain: seq<int>, lo: nat, hi: nat, n: nat)
    requires lo + n <= hi <= |plain|
    ensures forall y :: 0 <= y < n ==> plain[lo..hi][..n][y] == plain[lo + y]
  {
  }

  lemma {:induction false} RingBytes(plain: seq<int>, offset: nat, jobs: seq<Job>, copied: seq<seq<int>>, newSize: nat,
                                     before: nat -> int, k: nat, x: nat)
    requires Linked(jobs) && |copied| == |jobs| && k <= |jobs|
    requires forall j :: 0 <= j < |jobs| ==> PartOf(plain, offset, jobs[j], copied[j], newSize)
    ensures offset + JobsEnd(jobs[..k]) <= |plain| || k == 0
    ensures DevByte(before, jobs, copied, k, x)
         == if x < newSize && x < JobsEnd(jobs[..k]) then plain[offset + x] else before(x)
  {
    if k > 0 {
      RingBytes(plain, offset, jobs, copied, newSize, before, k - 1, x);
      assert PartOf(plain, offset, jobs[k - 1], copied[k - 1], newSize);
      var j := jobs[k - 1];
      assert j.byteOff == JobsEnd(jobs[..k - 1]) && j.byteOff + j.byteSize == JobsEnd(jobs[..k]);
      if j.byteOff <= x < j.byteOff + |copied[k - 1]| {
        var y := x - j.byteOff;
        assert copied[k - 1][y] == plain[offset + j.byteOff + y];
        assert DevByte(before, jobs, copied, k, x) == plain[offset + x];
      } else {
        assert DevByte(before, jobs, copied, k, x) == DevByte(before, jobs, copied, k - 1, x);
      }
      hide PartOf, Linked, JobsEnd;
    }
  }

  /** For every delivered job list the new allocation holds the plaintext, as far as
      it and the jobs reach. */
  lemma {:induction false} RingRestores(d: (Meta, seq<int>) -> seq<int>, s: Section, offset: nat, size: nat, chunk: nat,
                     jobs: seq<Job>, copied: seq<seq<int>>, newSize: nat, before: nat -> int, x: nat)
    requires s.Valid() && SizeKeeping(d)
    requires JobsTile(s.metas, offset, size, chunk, s.gpuStart, jobs)
    requires Delivered(d, s, jobs, copied, newSize)
    ensures |copied| == |jobs| && (offset + JobsEnd(jobs) <= |Plain(d, s)| || jobs == [])
    ensures DevByte(before, jobs, copied, |jobs|, x)
         == if x < newSize && x < JobsEnd(jobs) then Plain(d, s)[offset + x] else before(x)
  {
    forall j | 0 <= j < |jobs| ensures PartOf(Plain(d, s), offset, jobs[j], copied[j], newSize) {
      hide SizeKeeping;
      DeliveredParts(d, s, offset, size, chunk, jobs, copied, newSize, j);
    }
    hide JobOk, SizeKeeping, Dec, JobsTile, PartOf, Plain;
    assert jobs[..|jobs|] == jobs;
    RingBytes(Plain(d, s), offset, jobs, copied, newSize, before, |jobs|, x);
  }

  /** The ring's plan serves an allocation's jobs from job number `first` on. */
  ghost predicate Serves(p: RestoreRing.Plan, d: (Meta, seq<int>) -> seq<int>, s: Section, jobs: seq<Job>, newSize: nat, first: nat) {
    p.Valid() && first + |jobs| <= |p.plain| && forall k :: 0 <= k < |jobs| ==>
      && JobInSection(s, jobs[k]) && |JobBuffer(d, s, jobs[k])| == jobs[k].byteSize
      && p.plain[first + k] == JobBuffer(d, s, jobs[k]) && p.limits[first + k] == CopyLimit(jobs[k], newSize)
      && first + k !in p.failed
  }

  /** In every run of the ring, once the consumer is past an allocation's jobs, what it
      copied are the allowed parts of the jobs' decryptions. */
  lemma {:induction false} RunDelivers(p: RestoreRing.Plan, ring: nat, workers: nat, trace: seq<RestoreRing.Ring>, n: nat,
                    d: (Meta, seq<int>) -> seq<int>, s: Section, jobs: seq<Job>, newSize: nat, first: nat)
    requires RestoreRing.Run(p, ring, workers, trace) && n < |trace| && Serves(p, d, s, jobs, newSize, first)
    requires first + |jobs| <= trace[n].next
    ensures first + |jobs| <= |trace[n].out| && Delivered(d, s, jobs, trace[n].out[first..first + |jobs|], newSize)
  {
    RestoreRing.RunKeepsInv(p, ring, workers, trace, n);
    assert |trace[n].out| == trace[n].next;
    hide RestoreRing.Inv, JobInSection, JobBuffer, RestoreRing.Run;
    forall k | 0 <= k < |jobs|
      ensures trace[n].out[first..first + |jobs|][k] == JobBuffer(d, s, jobs[k])[..CopyLimit(jobs[k], newSize)]
    {
      RestoreRing.RingDelivers(p, ring, workers, trace, n, first + k);
    }
  }

  /** The serial path's single decryption, as one job over the whole slice. */
  function SerialJob(s: Section, offset: nat, copySize: nat, start: nat, end: nat): Job
    requires start <= end
  {
    Job(0, copySize, s.gpuStart + offset, start, end - start)
  }

  /** Whenever the serial path accepts an allocation, the ring leaves in it exactly the
      bytes the serial path would: the same plaintext below the copied size, and
      nothing touched past it. */
  lemma {:induction false} RingEqualsSerial(d: (Meta, seq<int>) -> seq<int>, s: Section, offset: nat, size: nat, chunk: nat,
                         jobs: seq<Job>, copied: seq<seq<int>>, newSize: nat, before: nat -> int, start: nat, end: nat, x: nat)
    requires s.Valid() && SizeKeeping(d) && chunk > 0
    requires JobsTile(s.metas, offset, size, chunk, s.gpuStart, jobs) && size <= JobsEnd(jobs)
    requires Delivered(d, s, jobs, copied, newSize)
    requires start <= end <= |s.metas| && Acc(s.metas, start) == offset
    requires Acc(s.metas, end) == offset + Lesser(size, newSize)
    ensures |copied| == |jobs| && JobInSection(s, SerialJob(s, offset, Lesser(size, newSize), start, end))
    ensures var staging := JobBuffer(d, s, SerialJob(s, offset, Lesser(size, newSize), start, end));
            && |staging| == Lesser(size, newSize)
            && DevByte(before, jobs, copied, |jobs|, x) == if x < |staging| then staging[x] else before(x)
  {
    hide SizeKeeping, JobsTile, Dec, Delivered, DevByte, Plain;
    var copySize := Lesser(size, newSize);
    if size <= newSize {
      JobsEndAligned(s.metas, offset, size, chunk, s.gpuStart, jobs);
    }
    hide Acc, JobsEnd;
    SerialPlain(d, s, offset, copySize, start, end);
    RingRestores(d, s, offset, size, chunk, jobs, copied, newSize, before, x);
  }
}
