/** The parallel delta writer: each thread copies its share of the blocks into the
    mapped file, byte by byte and in any interleaving with the others. */
module ParallelDelta {
  import opened Bytes
  import opened ImageFormat
  import opened Partition
  import opened StreamImage

  /** Thread `t` has finished its blocks before `block` and `k` bytes of that one. */
  datatype Cursor = Cursor(block: nat, k: nat)

  datatype Par = Par(img: seq<byte>, at: seq<Cursor>)

  function Offset(start: nat, caps: seq<Capture>, j: nat): nat
    requires j <= |caps|
  {
    start + SizeUpTo(caps, j)
  }

  ghost predicate CanStep(start: nat, caps: seq<Capture>, p: Par, t: nat) {
    && t < |p.at| && p.at[t].block < |caps| && p.at[t].block < ShareStart(|caps|, |p.at|, t + 1)
    && p.at[t].k <= BodySize(caps[p.at[t].block])
    && (p.at[t].k < BodySize(caps[p.at[t].block]) ==> Offset(start, caps, p.at[t].block) + p.at[t].k < |p.img|)
  }

  function After(start: nat, caps: seq<Capture>, p: Par, t: nat): Par
    requires CanStep(start, caps, p, t)
  {
    var b, k := p.at[t].block, p.at[t].k;
    if k < BodySize(caps[b]) then
      Par(p.img[Offset(start, caps, b) + k := Body(caps[b])[k]], p.at[t := Cursor(b, k + 1)])
    else
      p.(at := p.at[t := Cursor(b + 1, 0)])
  }

  ghost predicate ThreadOk(start: nat, caps: seq<Capture>, p: Par, t: nat)
    requires t < |p.at|
  {
    var lo, hi, c := ShareStart(|caps|, |p.at|, t), ShareStart(|caps|, |p.at|, t + 1), p.at[t];
    && lo <= c.block <= hi <= |caps|
    && (forall j :: lo <= j < c.block ==> WrittenTo(p.img, Offset(start, caps, j), Body(caps[j]), BodySize(caps[j])))
    && (c.block < hi ==> WrittenTo(p.img, Offset(start, caps, c.block), Body(caps[c.block]), c.k))
  }

  ghost predicate Inv(start: nat, caps: seq<Capture>, front: seq<byte>, p: Par) {
    && |front| == start && start + SizeUpTo(caps, |caps|) <= |p.img| && p.img[..start] == front
    && forall t :: 0 <= t < |p.at| ==> ThreadOk(start, caps, p, t)
  }

  lemma {:induction false} BlockFits(start: nat, caps: seq<Capture>, img: seq<byte>, j: nat)
    requires j < |caps| && start + SizeUpTo(caps, |caps|) <= |img|
    ensures WrittenTo(img, Offset(start, caps, j), Body(caps[j]), 0)
  {
    SizeMono(caps, j + 1, |caps|);
  }

  lemma {:induction false} OwnByteKept(start: nat, caps: seq<Capture>, front: seq<byte>, p: Par, t: nat)
    requires Inv(start, caps, front, p) && CanStep(start, caps, p, t) && p.at[t].k < BodySize(caps[p.at[t].block])
    ensures ThreadOk(start, caps, After(start, caps, p, t), t)
  {
    assert ThreadOk(start, caps, p, t);
    hide ShareStart, Body, SizeUpTo, WrittenTo, BodySize, Offset;
    var b, k := p.at[t].block, p.at[t].k;
    NextByte(p.img, Offset(start, caps, b), Body(caps[b]), k);
    EarlierKept(start, caps, p.img, b, k, ShareStart(|caps|, |p.at|, t));
    hide Inv;
  }

  lemma {:induction false} OwnBlockKept(start: nat, caps: seq<Capture>, front: seq<byte>, p: Par, t: nat)
    requires Inv(start, caps, front, p) && CanStep(start, caps, p, t) && p.at[t].k == BodySize(caps[p.at[t].block])
    ensures ThreadOk(start, caps, After(start, caps, p, t), t)
  {
    assert ThreadOk(start, caps, p, t);
    hide ShareStart, Body, SizeUpTo, WrittenTo, BodySize, Offset;
    var b := p.at[t].block;
    if b + 1 < ShareStart(|caps|, |p.at|, t + 1) {
      BlockFits(start, caps, p.img, b + 1);
    }
    hide Inv;
  }

  /** A byte or a block end: the thread's own progress stays what it says. */
  lemma {:induction false} OwnThreadKept(start: nat, caps: seq<Capture>, front: seq<byte>, p: Par, t: nat)
    requires Inv(start, caps, front, p) && CanStep(start, caps, p, t)
    ensures ThreadOk(start, caps, After(start, caps, p, t), t)
  {
    hide ThreadOk, After;
    if p.at[t].k < BodySize(caps[p.at[t].block]) {
      OwnByteKept(start, caps, front, p, t);
    } else {
      OwnBlockKept(start, caps, front, p, t);
    }
  }

  /** A byte of block `b` leaves the blocks from `lo` up to it as they were written. */
  lemma {:induction false} EarlierKept(start: nat, caps: seq<Capture>, img: seq<byte>, b: nat, k: nat, lo: nat)
    requires b < |caps| && k < BodySize(caps[b]) && start + SizeUpTo(caps, |caps|) <= |img| && Offset(start, caps, b) + k < |img|
    requires forall j :: lo <= j < b ==> WrittenTo(img, Offset(start, caps, j), Body(caps[j]), BodySize(caps[j]))
    ensures forall j :: lo <= j < b ==>
              WrittenTo(img[Offset(start, caps, b) + k := Body(caps[b])[k]], Offset(start, caps, j), Body(caps[j]), BodySize(caps[j]))
  {
    hide Body, SizeUpTo, WrittenTo, BodySize;
    forall j | lo <= j < b
      ensures WrittenTo(img[Offset(start, caps, b) + k := Body(caps[b])[k]], Offset(start, caps, j), Body(caps[j]), BodySize(caps[j]))
    {
      ByteApart(img, start, caps, b, k, Body(caps[b])[k], j, BodySize(caps[j]));
    }
  }

  lemma {:induction false} NextByte(img: seq<byte>, off: nat, body: seq<byte>, k: nat)
    requires WrittenTo(img, off, body, k) && k < |body|
    ensures WrittenTo(img[off + k := body[k]], off, body, k + 1)
  {
  }

  lemma {:induction false} OtherThreadKept(start: nat, caps: seq<Capture>, front: seq<byte>, p: Par, t: nat, u: nat)
    requires Inv(start, caps, front, p) && CanStep(start, caps, p, t) && u < |p.at| && u != t
    ensures ThreadOk(start, caps, After(start, caps, p, t), u)
  {
    var p' := After(start, caps, p, t);
    var b, k := p.at[t].block, p.at[t].k;
    var lo, hi := ShareStart(|caps|, |p.at|, u), ShareStart(|caps|, |p.at|, u + 1);
    assert ThreadOk(start, caps, p, t) && ThreadOk(start, caps, p, u);
    if t < u {
      SharesOrdered(|caps|, |p.at|, t + 1, u);
    } else {
      SharesOrdered(|caps|, |p.at|, u + 1, t);
    }
    assert b < lo || hi <= b;
    hide SizeUpTo, ShareStart, WrittenTo, Inv, Body;
    forall j, m | 0 <= j < |caps| && j != b && WrittenTo(p.img, Offset(start, caps, j), Body(caps[j]), m)
      ensures WrittenTo(p'.img, Offset(start, caps, j), Body(caps[j]), m)
    {
      if k < BodySize(caps[b]) {
        ByteApart(p.img, start, caps, b, k, Body(caps[b])[k], j, m);
      }
    }
  }

  lemma {:induction false} StepKeepsInv(start: nat, caps: seq<Capture>, front: seq<byte>, p: Par, t: nat)
    requires Inv(start, caps, front, p) && CanStep(start, caps, p, t)
    ensures Inv(start, caps, front, After(start, caps, p, t))
  {
    var p' := After(start, caps, p, t);
    forall u | 0 <= u < |p.at| ensures ThreadOk(start, caps, p', u) {
      if u == t {
        OwnThreadKept(start, caps, front, p, t);
      } else {
        OtherThreadKept(start, caps, front, p, t, u);
      }
    }
    hide ThreadOk, SizeUpTo, Body, ShareStart;
    assert p'.img[..start] == p.img[..start];
  }

  /** Thread `t` starts at its first block. */
  ghost predicate AtStart(n: nat, at: seq<Cursor>) {
    forall t :: 0 <= t < |at| ==> at[t] == Cursor(ShareStart(n, |at|, t), 0)
  }

  /** Every thread is through its share. */
  ghost predicate AtEnd(n: nat, at: seq<Cursor>) {
    forall t :: 0 <= t < |at| ==> at[t].block == ShareStart(n, |at|, t + 1)
  }

  ghost predicate Next(start: nat, caps: seq<Capture>, p: Par, p': Par) {
    exists t :: CanStep(start, caps, p, t) && p' == After(start, caps, p, t)
  }

  ghost predicate Run(start: nat, caps: seq<Capture>, front: seq<byte>, trace: seq<Par>) {
    && trace != [] && |front| == start && start + SizeUpTo(caps, |caps|) <= |trace[0].img| && trace[0].img[..start] == front
    && |trace[0].at| > 0 && AtStart(|caps|, trace[0].at)
    && forall n :: 0 < n < |trace| ==> Next(start, caps, trace[n - 1], trace[n])
  }

  lemma {:induction false} StartInv(start: nat, caps: seq<Capture>, front: seq<byte>, p: Par)
    requires |front| == start && start + SizeUpTo(caps, |caps|) <= |p.img| && p.img[..start] == front
    requires |p.at| > 0 && AtStart(|caps|, p.at)
    ensures Inv(start, caps, front, p)
  {
    var w := |p.at|;
    forall t | 0 <= t < w ensures ThreadOk(start, caps, p, t) {
      SharesCover(|caps|, w);
      SharesOrdered(|caps|, w, t, t + 1);
      SharesOrdered(|caps|, w, t + 1, w);
      if ShareStart(|caps|, w, t) < |caps| {
        BlockFits(start, caps, p.img, ShareStart(|caps|, w, t));
      }
    }
  }

  lemma {:induction false} RunKeepsInv(start: nat, caps: seq<Capture>, front: seq<byte>, trace: seq<Par>, n: nat)
    requires Run(start, caps, front, trace) && n < |trace|
    ensures Inv(start, caps, front, trace[n]) && |trace[n].at| == |trace[0].at|
  {
    hide Inv;
    if n == 0 {
      StartInv(start, caps, front, trace[0]);
    } else {
      RunKeepsInv(start, caps, front, trace, n - 1);
      assert Next(start, caps, trace[n - 1], trace[n]);
      var t :| CanStep(start, caps, trace[n - 1], t) && trace[n] == After(start, caps, trace[n - 1], t);
      StepKeepsInv(start, caps, front, trace[n - 1], t);
    }
  }

  /** What is before the range data of the image. */
  function Front(k: Kind, caps: seq<Capture>): (f: seq<byte>)
    ensures |f| == DataStart(k, |caps|)
    ensures Image(k, caps) == f + Bodies(caps, |caps|)
  {
    Head(k, |caps|, LengthUpTo(caps, |caps|)) + Table(Descs(caps, DataStart(k, |caps|), |caps|))
  }

  /** The parallel delta file is the sequential one: for any thread count and any
      interleaving, once every thread is through its share the mapped file starts with
      the image `WriteDelta` writes. */
  lemma {:induction false} ParallelIsSequential(k: Kind, caps: seq<Capture>, trace: seq<Par>)
    requires Run(DataStart(k, |caps|), caps, Front(k, caps), trace)
    requires AtEnd(|caps|, trace[|trace| - 1].at)
    ensures Image(k, caps) <= trace[|trace| - 1].img
  {
    var start, p := DataStart(k, |caps|), trace[|trace| - 1];
    RunKeepsInv(start, caps, Front(k, caps), trace, |trace| - 1);
    assert |p.at| > 0 && p.img[..start] == Front(k, caps) && start + SizeUpTo(caps, |caps|) <= |p.img|;
    hide Run, ThreadOk, AtEnd, AtStart, DataStart, Image, SizeUpTo, Bodies;
    forall j | 0 <= j < |caps| ensures BodyWritten(p.img, start, caps, j) {
      AllSharesWritten(start, caps, Front(k, caps), p, j);
    }
    hide BodyWritten, Inv;
    AssembleBodies(p.img, start, caps, |caps|);
    Joined(p.img, start, start + SizeUpTo(caps, |caps|), Front(k, caps), Bodies(caps, |caps|));
    hide Front;
  }

  lemma {:induction false} Joined(img: seq<byte>, start: nat, end: nat, front: seq<byte>, data: seq<byte>)
    requires start <= end <= |img| && img[..start] == front && img[start..end] == data
    ensures front + data <= img
  {
    assert img[..end] == img[..start] + img[start..end];
  }

  lemma {:induction false} AllSharesWritten(start: nat, caps: seq<Capture>, front: seq<byte>, p: Par, j: nat)
    requires Inv(start, caps, front, p) && |p.at| > 0 && j < |caps| && AtEnd(|caps|, p.at)
    ensures BodyWritten(p.img, start, caps, j)
  {
    hide SizeUpTo, Body, ShareStart;
    var t := ShareOf(|caps|, |p.at|, j);
    assert ThreadOk(start, caps, p, t);
    assert WrittenTo(p.img, Offset(start, caps, j), Body(caps[j]), BodySize(caps[j]));
    hide Inv, AtEnd;
  }

  /** No thread waits: until all are through, any unfinished one can write on. */
  lemma {:induction false} UnfinishedCanStep(start: nat, caps: seq<Capture>, front: seq<byte>, p: Par, t: nat)
    requires Inv(start, caps, front, p) && t < |p.at| && p.at[t].block != ShareStart(|caps|, |p.at|, t + 1)
    ensures CanStep(start, caps, p, t)
  {
    assert ThreadOk(start, caps, p, t);
  }
}
