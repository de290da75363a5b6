/** PhOS's four-phase recopy: snapshot, concurrent pre-copy, re-quiesce, and a
    stalled recopy of every allocation marked dirty meanwhile. */
module PhosRecopy {
  import opened Chunking
  import opened PingPong

  const MAX_ALLOCS: nat := 4096

  datatype Row = Row(va: nat, size: nat, slot: Slot, alive: bool, dirty: bool)

  datatype SnapEnt = SnapEnt(va: nat, size: nat, idx: nat)

  predicate Owns(r: Row, a: int) {
    r.alive && r.va <= a < r.va + r.size
  }

  /** The first live row holding `addr`, or |rows|. */
  function FindRow(rows: seq<Row>, addr: nat, from: nat := 0): (i: nat)
    requires from <= |rows|
    ensures from <= i <= |rows| && (i < |rows| ==> Owns(rows[i], addr))
    ensures forall k :: from <= k < i ==> !Owns(rows[k], addr)
    decreases |rows| - from
  {
    if from == |rows| || Owns(rows[from], addr) then from else FindRow(rows, addr, from + 1)
  }

  /** The live rows among the first `n`, in table order. */
  function SnapUpTo(rows: seq<Row>, n: nat): (snap: seq<SnapEnt>)
    requires n <= |rows|
    ensures forall k :: 0 <= k < |snap| ==> snap[k].idx < n
  {
    if n == 0 then []
    else SnapUpTo(rows, n - 1) + if rows[n - 1].alive then [SnapEnt(rows[n - 1].va, rows[n - 1].size, n - 1)] else []
  }

  predicate Selected(r: Row, dirtyOnly: bool) {
    (dirtyOnly ==> r.dirty) && r.alive && r.slot.At?
  }

  /** The chunk list of the first `n` snapshot entries. */
  function JobsUpTo(rows: seq<Row>, snap: seq<SnapEnt>, n: nat, dirtyOnly: bool, staging: nat): seq<Piece>
    requires staging > 0 && n <= |snap| && forall k :: 0 <= k < |snap| ==> snap[k].idx < |rows|
  {
    if n == 0 then []
    else
      var e, r := snap[n - 1], rows[snap[n - 1].idx];
      JobsUpTo(rows, snap, n - 1, dirtyOnly, staging)
      + if Selected(r, dirtyOnly) then CutUpTo(Piece(e.va, e.size, r.slot.offset), e.size, staging) else []
  }

  class AllocTable {
    var rows: seq<Row>
    var imageUsed: nat
    const imageSize: nat

    ghost predicate Valid()
      reads this
    {
      && |rows| <= MAX_ALLOCS && imageUsed <= imageSize
      && (forall i :: 0 <= i < |rows| && rows[i].slot.At? ==> rows[i].slot.offset + rows[i].size <= imageUsed)
      && SlotsDisjoint(rows)
    }

    constructor (size: nat)
      ensures Valid() && rows == [] && imageSize == size
    {
      rows, imageUsed, imageSize := [], 0, size;
    }

    /** A new allocation gets the next image bytes, even when the table is full, and counts
        as dirty. */
    method RecordAlloc(va: nat, size: nat)
      requires Valid()
      modifies this
      ensures Valid()
      ensures va == 0 || size == 0 || |old(rows)| == MAX_ALLOCS ==> rows == old(rows)
      ensures imageUsed == if va != 0 && size != 0 && old(imageUsed) + size <= imageSize then old(imageUsed) + size else old(imageUsed)
      ensures va != 0 && size != 0 && |old(rows)| < MAX_ALLOCS ==>
                rows == old(rows) + [Row(va, size, if old(imageUsed) + size > imageSize then NoSlot else At(old(imageUsed)), true, true)]
    {
      if va == 0 || size == 0 { return; }
      var slot := NoSlot;
      if imageUsed + size <= imageSize {
        slot := At(imageUsed);
        imageUsed := imageUsed + size;
      }
      if |rows| < MAX_ALLOCS {
        rows := rows + [Row(va, size, slot, true, true)];
      }
    }

    /** The live allocation holding the address is freed. */
    method RetireAlloc(addr: nat)
      requires Valid()
      modifies this`rows
      ensures Valid()
      ensures var i := FindRow(old(rows), addr);
              rows == if addr == 0 || i == |old(rows)| then old(rows) else old(rows)[i := old(rows)[i].(alive := false)]
    {
      if addr == 0 { return; }
      var i := FindRow(rows, addr);
      if i < |rows| { rows := rows[i := rows[i].(alive := false)]; }
    }

    /** The live allocation holding the address is marked. */
    method MarkDirty(addr: nat)
      requires Valid()
      modifies this`rows
      ensures Valid()
      ensures var i := FindRow(old(rows), addr);
              rows == if i == |old(rows)| then old(rows) else old(rows)[i := old(rows)[i].(dirty := true)]
    {
      var i := FindRow(rows, addr);
      if i < |rows| { rows := rows[i := rows[i].(dirty := true)]; }
    }

    /** Phase 1: list the live allocations and clear their dirty flags. */
    method SnapshotLiveAllocs() returns (snap: seq<SnapEnt>)
      requires Valid()
      modifies this`rows
      ensures Valid()
      ensures snap == SnapUpTo(old(rows), |old(rows)|)
      ensures |rows| == |old(rows)|
      ensures forall i :: 0 <= i < |rows| ==>
                rows[i] == if old(rows)[i].alive then old(rows)[i].(dirty := false) else old(rows)[i]
    {
      snap := [];
      ghost var was := rows;
      for i := 0 to |rows|
        invariant Valid() && |rows| == |was|
        invariant snap == SnapUpTo(was, i)
        invariant forall k :: 0 <= k < i ==> rows[k] == if was[k].alive then was[k].(dirty := false) else was[k]
        invariant forall k :: i <= k < |rows| ==> rows[k] == was[k]
      {
        assert SnapUpTo(was, i + 1) == snap + if was[i].alive then [SnapEnt(was[i].va, was[i].size, i)] else [];
        hide SnapUpTo;
        if rows[i].alive {
          snap := snap + [SnapEnt(rows[i].va, rows[i].size, i)];
          rows := rows[i := rows[i].(dirty := false)];
        }
      }
    }

    /** Count the chunks, then list them; the list fills the count exactly. */
    method BuildChunks(snap: seq<SnapEnt>, staging: nat, dirtyOnly: bool) returns (planned: nat, chunks: seq<Piece>)
      requires staging > 0 && forall k :: 0 <= k < |snap| ==> snap[k].idx < |rows|
      ensures chunks == JobsUpTo(rows, snap, |snap|, dirtyOnly, staging)
      ensures planned == |chunks|
    {
      planned, chunks := 0, [];
      for i := 0 to |snap|
        invariant planned == |JobsUpTo(rows, snap, i, dirtyOnly, staging)|
      {
        var r := rows[snap[i].idx];
        if Selected(r, dirtyOnly) {
          CutCount(Piece(snap[i].va, snap[i].size, r.slot.offset), snap[i].size, staging);
          planned := planned + (snap[i].size + staging - 1) / staging;
        }
      }
      if planned == 0 { return; }
      for i := 0 to |snap|
        invariant chunks == JobsUpTo(rows, snap, i, dirtyOnly, staging)
      {
        var r := rows[snap[i].idx];
        if Selected(r, dirtyOnly) {
          var cut := CutRow(Piece(snap[i].va, snap[i].size, r.slot.offset), staging);
          chunks := chunks + cut;
        }
      }
    }
  }

  method CutRow(p: Piece, staging: nat) returns (cut: seq<Piece>)
    requires staging > 0
    ensures cut == CutUpTo(p, p.size, staging)
  {
    cut := [];
    var off := 0;
    CutNothing(p, staging);
    while off < p.size
      invariant off <= p.size && (off < p.size ==> off % staging == 0)
      invariant cut == CutUpTo(p, off, staging)
    {
      var size := p.size - off;
      if size > staging { size := staging; }
      CutStep(p, off, size, staging);
      cut := cut + [Piece(p.va + off, size, p.img + off)];
      off := off + size;
    }
  }

  ghost predicate SlotsDisjoint(rows: seq<Row>) {
    forall i, j :: 0 <= i < j < |rows| && rows[i].slot.At? && rows[j].slot.At? ==>
      rows[i].slot.offset + rows[i].size <= rows[j].slot.offset || rows[j].slot.offset + rows[j].size <= rows[i].slot.offset
  }

  ghost predicate RowsDisjoint(rows: seq<Row>) {
    forall i, j, a :: 0 <= i < |rows| && 0 <= j < |rows| && Owns(rows[i], a) && Owns(rows[j], a) ==> i == j
  }

  // ---------------------------------------------------------------- jobs

  lemma {:induction false} SnapLists(rows: seq<Row>, n: nat)
    requires n <= |rows|
    ensures forall k :: 0 <= k < |SnapUpTo(rows, n)| ==>
              var e := SnapUpTo(rows, n)[k];
              e.idx < n && rows[e.idx].alive && e.va == rows[e.idx].va && e.size == rows[e.idx].size
    ensures forall i :: 0 <= i < n && rows[i].alive ==>
              exists k :: 0 <= k < |SnapUpTo(rows, n)| && SnapUpTo(rows, n)[k].idx == i
  {
    if n > 0 {
      SnapLists(rows, n - 1);
      var prev, all := SnapUpTo(rows, n - 1), SnapUpTo(rows, n);
      forall i | 0 <= i < n && rows[i].alive ensures exists k :: 0 <= k < |all| && all[k].idx == i {
        if i < n - 1 {
          var k :| 0 <= k < |prev| && prev[k].idx == i;
          assert all[k].idx == i;
        } else {
          assert all[|prev|].idx == i;
        }
      }
    }
  }

  ghost predicate Snapped(rows: seq<Row>, snap: seq<SnapEnt>) {
    forall k :: 0 <= k < |snap| ==> snap[k].idx < |rows| && snap[k].va == rows[snap[k].idx].va && snap[k].size == rows[snap[k].idx].size
  }

  /** Row `i` sends its byte `a` to image byte `x`. */
  ghost predicate RowCarries(rows: seq<Row>, i: nat, a: int, x: int) {
    i < |rows| && rows[i].slot.At? && rows[i].va <= a < rows[i].va + rows[i].size
    && x == rows[i].slot.offset + (a - rows[i].va)
  }

  /** One of the first `n` snapshot entries is selected and sends `a` to `x`. */
  ghost predicate EntryCarries(rows: seq<Row>, snap: seq<SnapEnt>, n: nat, dirtyOnly: bool, a: int, x: int)
    requires n <= |snap| && Snapped(rows, snap)
  {
    exists k :: 0 <= k < n && Selected(rows[snap[k].idx], dirtyOnly) && RowCarries(rows, snap[k].idx, a, x)
  }

  lemma {:induction false} LastEntry(rows: seq<Row>, snap: seq<SnapEnt>, n: nat, dirtyOnly: bool, a: int, x: int)
    requires 0 < n <= |snap| && Snapped(rows, snap)
    ensures EntryCarries(rows, snap, n, dirtyOnly, a, x)
       <==> EntryCarries(rows, snap, n - 1, dirtyOnly, a, x)
            || (Selected(rows[snap[n - 1].idx], dirtyOnly) && RowCarries(rows, snap[n - 1].idx, a, x))
  {
    hide Selected, RowCarries;
  }

  /** The chunk list carries exactly the bytes of the selected snapshot entries. */
  lemma {:induction false} JobsCarry(rows: seq<Row>, snap: seq<SnapEnt>, n: nat, dirtyOnly: bool, staging: nat, a: int, x: int)
    requires staging > 0 && n <= |snap| && Snapped(rows, snap)
    ensures Carries(JobsUpTo(rows, snap, n, dirtyOnly, staging), a, x) <==> EntryCarries(rows, snap, n, dirtyOnly, a, x)
  {
    if n > 0 {
      JobsCarry(rows, snap, n - 1, dirtyOnly, staging, a, x);
      LastEntry(rows, snap, n, dirtyOnly, a, x);
      CutCarries(rows, snap, n - 1, staging, a, x);
      var e, r := snap[n - 1], rows[snap[n - 1].idx];
      if Selected(r, dirtyOnly) {
        CarriesConcat(JobsUpTo(rows, snap, n - 1, dirtyOnly, staging), CutUpTo(Piece(e.va, e.size, r.slot.offset), e.size, staging), a, x);
      } else {
        assert JobsUpTo(rows, snap, n, dirtyOnly, staging) == JobsUpTo(rows, snap, n - 1, dirtyOnly, staging);
      }
    }
    hide Carries, CutUpTo, EntryCarries, RowCarries;
  }

  lemma {:induction false} CutCarries(rows: seq<Row>, snap: seq<SnapEnt>, k: nat, staging: nat, a: int, x: int)
    requires staging > 0 && k < |snap| && Snapped(rows, snap)
    ensures var e, r := snap[k], rows[snap[k].idx];
            r.slot.At? ==> (Carries(CutUpTo(Piece(e.va, e.size, r.slot.offset), e.size, staging), a, x) <==> RowCarries(rows, e.idx, a, x))
  {
    var e, r := snap[k], rows[snap[k].idx];
    if r.slot.At? {
      CutTiles(Piece(e.va, e.size, r.slot.offset), e.size, staging);
    }
    hide CutUpTo, Carries;
  }

  // -------------------------------------------------------------- protocol

  type Memory = nat -> int

  function Poke(m: Memory, at: nat, value: int): Memory {
    (x: nat) => if x == at then value else m(x)
  }

  /** A launched device operation: it may write its allocation until it completes,
      and its hook marks the allocation at some point in between. */
  datatype Op = Op(alloc: nat, wrote: bool, marked: bool)

  /** `marks` are the dirty marks set since the phase began. */
  datatype Sys = Sys(mem: Memory, marks: seq<bool>, inflight: seq<Op>, pipe: Pipe<seq<int>>)

  datatype Event =
    | Launch(alloc: nat)
    | Write(op: nat, addr: nat, value: int)
    | WriteElsewhere(addr: nat, value: int)
    | Mark(op: nat)
    | Complete(op: nat)
    | Record(alloc: nat)      // a new allocation is recorded, and counts as dirty
    | Copy                    // one more byte of the current chunk reaches staging
    | Pipeline(step: Step<seq<int>>)

  predicate AppEvent(e: Event) { !e.Copy? && !e.Pipeline? }

  function Staged(s: Sys): seq<int>
    requires |s.pipe.buf| == 2
  {
    s.pipe.buf[s.pipe.produced % 2]
  }

  ghost predicate CanStep(rows: seq<Row>, jobs: seq<Piece>, s: Sys, e: Event)
    requires |s.marks| == |rows| && |s.pipe.buf| == 2 && |s.pipe.ready| == 2
  {
    match e
    case Launch(i) => i < |rows|
    case Write(k, a, _) => k < |s.inflight| && s.inflight[k].alloc < |rows| && Owns(rows[s.inflight[k].alloc], a)
    case WriteElsewhere(a, _) => forall i :: 0 <= i < |rows| ==> !Owns(rows[i], a)
    case Mark(k) => k < |s.inflight| && s.inflight[k].alloc < |rows|
    case Complete(k) => k < |s.inflight| && s.inflight[k].marked
    case Record(i) => i < |rows|
    case Copy => s.pipe.filling && s.pipe.produced < |jobs| && |Staged(s)| < jobs[s.pipe.produced].size
    case Pipeline(step) =>
      && Enabled(s.pipe, |jobs|, step) && !step.Fill?
      && (step.HandOff? ==> s.pipe.produced < |jobs| && |Staged(s)| == jobs[s.pipe.produced].size)
  }

  function After(rows: seq<Row>, jobs: seq<Piece>, s: Sys, e: Event): Sys
    requires |s.marks| == |rows| && |s.pipe.buf| == 2 && |s.pipe.ready| == 2
    requires CanStep(rows, jobs, s, e)
  {
    match e
    case Launch(i) => s.(inflight := s.inflight + [Op(i, false, false)])
    case Write(k, a, v) =>
      s.(mem := Poke(s.mem, a, v), inflight := s.inflight[k := s.inflight[k].(wrote := true)])
    case WriteElsewhere(a, v) => s.(mem := Poke(s.mem, a, v))
    case Mark(k) =>
      s.(marks := s.marks[s.inflight[k].alloc := true], inflight := s.inflight[k := s.inflight[k].(marked := true)])
    case Complete(k) => s.(inflight := s.inflight[..k] + s.inflight[k + 1..])
    case Record(i) => s.(marks := s.marks[i := true])
    case Copy =>
      s.(pipe := Apply(s.pipe, Fill(Staged(s) + [s.mem(jobs[s.pipe.produced].va + |Staged(s)|)])))
    case Pipeline(Begin) => s.(pipe := Apply(Apply(s.pipe, Begin), Fill([])))
    case Pipeline(step) => s.(pipe := Apply(s.pipe, step))
  }

  /** Neither marked nor written since the phase began. */
  ghost predicate Untouched(s: Sys, i: nat)
    requires i < |s.marks|
  {
    !s.marks[i] && forall k :: 0 <= k < |s.inflight| && s.inflight[k].alloc == i ==> !s.inflight[k].wrote
  }

  /** Content of one chunk agrees with memory `m0` on every untouched allocation. */
  ghost predicate Agrees(rows: seq<Row>, s: Sys, m0: Memory, p: Piece, content: seq<int>)
    requires |s.marks| == |rows|
  {
    forall i, k :: 0 <= i < |rows| && 0 <= k < |content| && Owns(rows[i], p.va + k) && Untouched(s, i) ==>
      content[k] == m0(p.va + k)
  }

  ghost predicate SysInv(rows: seq<Row>, jobs: seq<Piece>, m0: Memory, s: Sys) {
    && |s.marks| == |rows|
    && Inv(s.pipe, |jobs|)
    && (forall i, a: nat :: 0 <= i < |rows| && Owns(rows[i], a) && Untouched(s, i) ==> s.mem(a) == m0(a))
    && (forall j :: 0 <= j < s.pipe.produced ==>
          |s.pipe.handed[j]| == jobs[j].size && Agrees(rows, s, m0, jobs[j], s.pipe.handed[j]))
    && (s.pipe.filling ==>
          |Staged(s)| <= jobs[s.pipe.produced].size && Agrees(rows, s, m0, jobs[s.pipe.produced], Staged(s)))
    && (forall k :: 0 <= k < |s.inflight| && s.inflight[k].marked && s.inflight[k].alloc < |rows| ==> s.marks[s.inflight[k].alloc])
    && (forall k :: 0 <= k < |s.inflight| ==> s.inflight[k].alloc < |rows|)
  }

  /** Nothing becomes untouched again within a phase. */
  lemma {:induction false} UntouchedShrinks(rows: seq<Row>, jobs: seq<Piece>, m0: Memory, s: Sys, e: Event, i: nat)
    requires SysInv(rows, jobs, m0, s) && CanStep(rows, jobs, s, e)
    requires i < |rows| && Untouched(After(rows, jobs, s, e), i)
    ensures Untouched(s, i)
  {
    var s' := After(rows, jobs, s, e);
    forall k | 0 <= k < |s.inflight| && s.inflight[k].alloc == i ensures !s.inflight[k].wrote {
      match e
      case Complete(c) =>
        if k < c {
          assert s'.inflight[k] == s.inflight[k];
        } else if k > c {
          assert s'.inflight[k - 1] == s.inflight[k];
        }
      case Launch(_) => assert s'.inflight[k] == s.inflight[k];
      case Write(_, _, _) => assert s'.inflight[k].alloc == i;
      case Mark(_) => assert s'.inflight[k].wrote == s.inflight[k].wrote;
      case _ => assert s'.inflight[k] == s.inflight[k];
    }
  }

  lemma {:induction false} AppKeepsInv(rows: seq<Row>, jobs: seq<Piece>, m0: Memory, s: Sys, e: Event)
    requires SysInv(rows, jobs, m0, s) && CanStep(rows, jobs, s, e) && AppEvent(e) && RowsDisjoint(rows)
    ensures SysInv(rows, jobs, m0, After(rows, jobs, s, e))
  {
    var s' := After(rows, jobs, s, e);
    forall i: nat | i < |rows| && Untouched(s', i) ensures Untouched(s, i) {
      UntouchedShrinks(rows, jobs, m0, s, e, i);
    }
    if e.Write? {
      assert s'.inflight[e.op].wrote && !Untouched(s', s.inflight[e.op].alloc);
    }
    forall i, a: nat | 0 <= i < |rows| && Owns(rows[i], a) && Untouched(s', i) ensures s'.mem(a) == m0(a) {
    }
    hide Inv, Owns;
  }

  lemma {:induction false} CopyKeepsInv(rows: seq<Row>, jobs: seq<Piece>, m0: Memory, s: Sys)
    requires SysInv(rows, jobs, m0, s) && CanStep(rows, jobs, s, Copy)
    ensures SysInv(rows, jobs, m0, After(rows, jobs, s, Copy))
  {
    var s' := After(rows, jobs, s, Copy);
    var j := s.pipe.produced;
    var cell := s.mem(jobs[j].va + |Staged(s)|);
    StepKeepsInv(s.pipe, |jobs|, Fill(Staged(s) + [cell]));
    assert Staged(s') == Staged(s) + [cell];
    hide Inv;
    forall i: nat | i < |rows| ensures Untouched(s', i) <==> Untouched(s, i) {
    }
    forall i, k | 0 <= i < |rows| && 0 <= k < |Staged(s')| && Owns(rows[i], jobs[j].va + k) && Untouched(s', i)
      ensures Staged(s')[k] == m0(jobs[j].va + k)
    {
      if k < |Staged(s)| {
        assert Agrees(rows, s, m0, jobs[j], Staged(s));
        assert Staged(s')[k] == Staged(s)[k];
      }
    }
    assert forall q :: 0 <= q < s.pipe.produced ==> Agrees(rows, s', m0, jobs[q], s.pipe.handed[q]);
  }

  /** Pipeline steps touch neither memory nor marks: with the pipe in order and the
      staged and handed chunks accounted for, the invariant carries over. */
  lemma {:induction false} PipeOnly(rows: seq<Row>, jobs: seq<Piece>, m0: Memory, s: Sys, s': Sys)
    requires SysInv(rows, jobs, m0, s) && s' == s.(pipe := s'.pipe) && Inv(s'.pipe, |jobs|)
    requires forall j :: 0 <= j < s'.pipe.produced ==>
               |s'.pipe.handed[j]| == jobs[j].size && Agrees(rows, s, m0, jobs[j], s'.pipe.handed[j])
    requires s'.pipe.filling ==>
               |Staged(s')| <= jobs[s'.pipe.produced].size && Agrees(rows, s, m0, jobs[s'.pipe.produced], Staged(s'))
    ensures SysInv(rows, jobs, m0, s')
  {
    assert forall i: nat :: i < |rows| ==> (Untouched(s', i) <==> Untouched(s, i));
    assert forall p, content :: Agrees(rows, s, m0, p, content) ==> Agrees(rows, s', m0, p, content);
    hide Inv, Agrees;
  }

  lemma {:induction false} BeginKeepsInv(rows: seq<Row>, jobs: seq<Piece>, m0: Memory, s: Sys)
    requires SysInv(rows, jobs, m0, s) && CanStep(rows, jobs, s, Pipeline(Begin))
    ensures SysInv(rows, jobs, m0, After(rows, jobs, s, Pipeline(Begin)))
  {
    hide Agrees, Owns, Untouched;
    var s' := After(rows, jobs, s, Pipeline(Begin));
    StepKeepsInv(s.pipe, |jobs|, Begin);
    StepKeepsInv(Apply(s.pipe, Begin), |jobs|, Fill([]));
    assert Staged(s') == [] && s'.pipe.handed == s.pipe.handed;
    NothingAgrees(rows, s, m0, jobs[s.pipe.produced]);
    hide Inv, Apply;
    PipeOnly(rows, jobs, m0, s, s');
  }

  lemma {:induction false} PipelineKeepsInv(rows: seq<Row>, jobs: seq<Piece>, m0: Memory, s: Sys, step: Step<seq<int>>)
    requires SysInv(rows, jobs, m0, s) && CanStep(rows, jobs, s, Pipeline(step))
    ensures SysInv(rows, jobs, m0, After(rows, jobs, s, Pipeline(step)))
  {
    hide Agrees, Owns, Untouched;
    if step.Begin? {
      BeginKeepsInv(rows, jobs, m0, s);
      return;
    }
    var s' := After(rows, jobs, s, Pipeline(step));
    StepKeepsInv(s.pipe, |jobs|, step);
    if step.HandOff? {
      assert s'.pipe.handed == s.pipe.handed + [Staged(s)] && !s'.pipe.filling;
    } else {
      assert s'.pipe.handed == s.pipe.handed && s'.pipe.produced == s.pipe.produced && s'.pipe.buf == s.pipe.buf;
    }
    hide Inv, Apply;
    PipeOnly(rows, jobs, m0, s, s');
  }

  lemma {:induction false} NothingAgrees(rows: seq<Row>, s: Sys, m0: Memory, p: Piece)
    requires |s.marks| == |rows|
    ensures Agrees(rows, s, m0, p, [])
  {
  }

  function StartPhase(rows: seq<Row>, m0: Memory): Sys {
    Sys(m0, seq(|rows|, _ => false), [], PingPong.Init([]))
  }

  /** A run of one phase from memory `m0` with nothing in flight. */
  ghost predicate PhaseRun(rows: seq<Row>, jobs: seq<Piece>, m0: Memory, states: seq<Sys>, events: seq<Event>) {
    && |states| == |events| + 1 && states[0] == StartPhase(rows, m0)
    && forall i :: 0 <= i < |events| ==>
         && |states[i].marks| == |rows| && |states[i].pipe.buf| == 2 && |states[i].pipe.ready| == 2
         && CanStep(rows, jobs, states[i], events[i])
         && states[i + 1] == After(rows, jobs, states[i], events[i])
  }

  lemma {:induction false} PhaseInv(rows: seq<Row>, jobs: seq<Piece>, m0: Memory, states: seq<Sys>, events: seq<Event>, n: nat)
    requires PhaseRun(rows, jobs, m0, states, events) && RowsDisjoint(rows) && n < |states|
    ensures SysInv(rows, jobs, m0, states[n])
  {
    if n == 0 {
      InitInv<seq<int>>([], |jobs|);
    } else {
      PhaseInv(rows, jobs, m0, states, events, n - 1);
      if AppEvent(events[n - 1]) {
        AppKeepsInv(rows, jobs, m0, states[n - 1], events[n - 1]);
      } else if events[n - 1].Copy? {
        CopyKeepsInv(rows, jobs, m0, states[n - 1]);
      } else {
        PipelineKeepsInv(rows, jobs, m0, states[n - 1], events[n - 1].step);
      }
    }
  }

  /** When the copy of every job has been written back, the image holds the phase's
      initial memory for each carried allocation nobody touched, and memory still
      has that value. */
  lemma {:induction false} PhaseDelivers(rows: seq<Row>, snap: seq<SnapEnt>, dirtyOnly: bool, staging: nat,
                      m0: Memory, states: seq<Sys>, events: seq<Event>, before: Memory, k: nat, a: nat)
    requires staging > 0 && Snapped(rows, snap) && k < |snap|
    requires RowsDisjoint(rows) && SlotsDisjoint(rows)
    requires PhaseRun(rows, JobsUpTo(rows, snap, |snap|, dirtyOnly, staging), m0, states, events)
    requires var s := states[|states| - 1];
             && s.pipe.consumer.Exited? && s.pipe.produced == |JobsUpTo(rows, snap, |snap|, dirtyOnly, staging)|
             && |s.marks| == |rows| && Untouched(s, snap[k].idx)
    requires Selected(rows[snap[k].idx], dirtyOnly) && Owns(rows[snap[k].idx], a)
    requires forall q :: 0 <= q < |snap| ==> rows[snap[q].idx].alive
    ensures var s := states[|states| - 1]; var jobs := JobsUpTo(rows, snap, |snap|, dirtyOnly, staging);
            var r := rows[snap[k].idx];
            && s.pipe.out == s.pipe.handed && |s.pipe.out| == |jobs|
            && ImageByte(before, jobs, s.pipe.out, |jobs|, r.slot.offset + (a - r.va)) == m0(a)
            && s.mem(a) == m0(a)
  {
    var jobs := JobsUpTo(rows, snap, |snap|, dirtyOnly, staging);
    var s := states[|states| - 1];
    PhaseInv(rows, jobs, m0, states, events, |states| - 1);
    assert s.pipe.out == s.pipe.handed && |s.pipe.out| == |jobs|;
    assert s.mem(a) == m0(a);
    var r := rows[snap[k].idx];
    var x := r.slot.offset + (a - r.va);
    var j := ReachedBy(rows, snap, dirtyOnly, staging, k, a);
    assert jobs[j].img <= x < jobs[j].img + |s.pipe.out[j]|;
    forall j | 0 <= j < |jobs| && jobs[j].img <= x < jobs[j].img + |s.pipe.out[j]|
      ensures s.pipe.out[j][x - jobs[j].img] == m0(a)
    {
      SourceIs(rows, snap, dirtyOnly, staging, k, a, j);
      assert Agrees(rows, s, m0, jobs[j], s.pipe.handed[j]);
    }
    hide PhaseRun, SysInv, JobsUpTo, RowsDisjoint, SlotsDisjoint, Agrees;
    ImageByteAgreed(before, jobs, s.pipe.out, |jobs|, x, m0(a));
  }

  /** Some job brings byte `a` of a selected entry to its place. */
  lemma {:induction false} ReachedBy(rows: seq<Row>, snap: seq<SnapEnt>, dirtyOnly: bool, staging: nat, k: nat, a: nat) returns (j: nat)
    requires staging > 0 && Snapped(rows, snap) && k < |snap|
    requires Selected(rows[snap[k].idx], dirtyOnly) && Owns(rows[snap[k].idx], a)
    ensures var jobs := JobsUpTo(rows, snap, |snap|, dirtyOnly, staging);
            var x := rows[snap[k].idx].slot.offset + (a - rows[snap[k].idx].va);
            j < |jobs| && jobs[j].va <= a < jobs[j].va + jobs[j].size && x == jobs[j].img + (a - jobs[j].va)
  {
    var jobs := JobsUpTo(rows, snap, |snap|, dirtyOnly, staging);
    var x := rows[snap[k].idx].slot.offset + (a - rows[snap[k].idx].va);
    assert RowCarries(rows, snap[k].idx, a, x);
    JobsCarry(rows, snap, |snap|, dirtyOnly, staging, a, x);
    hide JobsUpTo;
    j :| 0 <= j < |jobs| && jobs[j].va <= a < jobs[j].va + jobs[j].size && x == jobs[j].img + (a - jobs[j].va);
  }

  /** A job that reaches the place of byte `a` takes byte `a` there. */
  lemma {:induction false} SourceIs(rows: seq<Row>, snap: seq<SnapEnt>, dirtyOnly: bool, staging: nat, k: nat, a: nat, j: nat)
    requires staging > 0 && Snapped(rows, snap) && k < |snap| && SlotsDisjoint(rows)
    requires Selected(rows[snap[k].idx], dirtyOnly) && Owns(rows[snap[k].idx], a)
    requires var jobs := JobsUpTo(rows, snap, |snap|, dirtyOnly, staging);
             var x := rows[snap[k].idx].slot.offset + (a - rows[snap[k].idx].va);
             j < |jobs| && jobs[j].img <= x < jobs[j].img + jobs[j].size
    ensures var jobs := JobsUpTo(rows, snap, |snap|, dirtyOnly, staging);
            var x := rows[snap[k].idx].slot.offset + (a - rows[snap[k].idx].va);
            jobs[j].va + (x - jobs[j].img) == a
  {
    var jobs := JobsUpTo(rows, snap, |snap|, dirtyOnly, staging);
    var x := rows[snap[k].idx].slot.offset + (a - rows[snap[k].idx].va);
    var b := jobs[j].va + (x - jobs[j].img);
    assert Carries(jobs, b, x);
    JobsCarry(rows, snap, |snap|, dirtyOnly, staging, b, x);
    hide JobsUpTo, Carries;
    var q :| 0 <= q < |snap| && Selected(rows[snap[q].idx], dirtyOnly) && RowCarries(rows, snap[q].idx, b, x);
    assert snap[q].idx == snap[k].idx;
  }

  /** The table as Phase 4 reads it: a row is dirty when it was marked meanwhile. */
  function WithMarks(rows: seq<Row>, marks: seq<bool>): (r: seq<Row>)
    requires |marks| == |rows|
    ensures |r| == |rows| && forall i :: 0 <= i < |r| ==> r[i] == rows[i].(dirty := marks[i])
  {
    seq(|rows|, i requires 0 <= i < |rows| => rows[i].(dirty := marks[i]))
  }

  /** While the application is stalled memory and marks stand still. */
  lemma {:induction false} StalledPhase(rows: seq<Row>, jobs: seq<Piece>, m0: Memory, states: seq<Sys>, events: seq<Event>, n: nat)
    requires PhaseRun(rows, jobs, m0, states, events) && n < |states|
    requires forall i :: 0 <= i < |events| ==> !AppEvent(events[i])
    ensures states[n].mem == m0 && states[n].inflight == [] && states[n].marks == StartPhase(rows, m0).marks
  {
    if n > 0 {
      StalledPhase(rows, jobs, m0, states, events, n - 1);
    }
  }

  ghost predicate Drained(s: Sys, jobs: seq<Piece>) {
    s.pipe.consumer.Exited? && s.pipe.produced == |jobs|
  }

  /** A whole recopy after the snapshot listed the live ones of the first `listed` rows and
      cleared their dirty flags: a Phase 2 run among application events, which record the
      rows behind those, and a stalled Phase 4 run, both drained. */
  datatype Recopy = Recopy(rows: seq<Row>, listed: nat, staging: nat, m0: Memory, states2: seq<Sys>, events2: seq<Event>,
                           states4: seq<Sys>, events4: seq<Event>)
  {
    function Snap(): (snap: seq<SnapEnt>)
      requires listed <= |rows|
      ensures forall k :: 0 <= k < |snap| ==> snap[k].idx < |rows|
    {
      SnapUpTo(rows, listed)
    }

    function BaseJobs(): seq<Piece>
      requires staging > 0 && listed <= |rows|
    {
      JobsUpTo(rows, Snap(), |Snap()|, false, staging)
    }

    function DeltaJobs(marks: seq<bool>): seq<Piece>
      requires staging > 0 && listed <= |rows| && |marks| == |rows|
    {
      JobsUpTo(WithMarks(rows, marks), Snap(), |Snap()|, true, staging)
    }

    ghost predicate Completed() {
      && staging > 0 && listed <= |rows| && |states2| > 0 && |states4| > 0
      && RowsDisjoint(rows) && SlotsDisjoint(rows)
      && var s2, s4 := states2[|states2| - 1], states4[|states4| - 1];
      && PhaseRun(rows, BaseJobs(), m0, states2, events2) && Drained(s2, BaseJobs())
      && |s2.marks| == |rows| && s2.inflight == []
      && PhaseRun(WithMarks(rows, s2.marks), DeltaJobs(s2.marks), s2.mem, states4, events4)
      && Drained(s4, DeltaJobs(s2.marks))
      && forall e :: e in events4 ==> !AppEvent(e)
    }
  }

  /** Recopy is consistent: over every interleaving of application writes and allocations
      with Phase 2, at the end of Phase 4 each snapshotted allocation with an image slot
      reads, from the delta image if it was marked and from the base image if it was
      not, exactly as device memory does. */
  lemma {:induction false} RecopyConsistent(r: Recopy, base: Memory, delta: Memory, i: nat, a: nat)
    requires r.Completed()
    requires i < r.listed && Selected(r.rows[i], false) && Owns(r.rows[i], a)
    ensures var s2, s4 := r.states2[|r.states2| - 1], r.states4[|r.states4| - 1];
            var x := r.rows[i].slot.offset + (a - r.rows[i].va);
            && |s2.pipe.out| == |r.BaseJobs()| && |s4.pipe.out| == |r.DeltaJobs(s2.marks)|
            && s4.mem(a) == if s2.marks[i] then ImageByte(delta, r.DeltaJobs(s2.marks), s4.pipe.out, |s4.pipe.out|, x)
                            else ImageByte(base, r.BaseJobs(), s2.pipe.out, |s2.pipe.out|, x)
  {
    hide PhaseRun, JobsUpTo, SnapUpTo, ImageByte, RowsDisjoint, SlotsDisjoint, AppEvent, Agrees;
    var s2, s4 := r.states2[|r.states2| - 1], r.states4[|r.states4| - 1];
    var rows4 := WithMarks(r.rows, s2.marks);
    SnapLists(r.rows, r.listed);
    var k :| 0 <= k < |r.Snap()| && r.Snap()[k].idx == i;
    RemarkedDisjoint(r.rows, s2.marks);
    PhaseDrains(r.rows, r.BaseJobs(), r.m0, r.states2, r.events2);
    PhaseDrains(rows4, r.DeltaJobs(s2.marks), s2.mem, r.states4, r.events4);
    StalledPhase(rows4, r.DeltaJobs(s2.marks), s2.mem, r.states4, r.events4, |r.states4| - 1);
    if s2.marks[i] {
      PhaseDelivers(rows4, r.Snap(), true, r.staging, s2.mem, r.states4, r.events4, delta, k, a);
    } else {
      PhaseDelivers(r.rows, r.Snap(), false, r.staging, r.m0, r.states2, r.events2, base, k, a);
    }
  }

  lemma {:induction false} RemarkedDisjoint(rows: seq<Row>, marks: seq<bool>)
    requires |marks| == |rows| && RowsDisjoint(rows) && SlotsDisjoint(rows)
    ensures RowsDisjoint(WithMarks(rows, marks)) && SlotsDisjoint(WithMarks(rows, marks))
  {
    forall i, j, a | 0 <= i < |rows| && 0 <= j < |rows| && Owns(WithMarks(rows, marks)[i], a) && Owns(WithMarks(rows, marks)[j], a)
      ensures i == j
    {
      assert Owns(rows[i], a) && Owns(rows[j], a);
    }
  }

  /** A drained phase wrote back every chunk handed over. */
  lemma {:induction false} PhaseDrains(rows: seq<Row>, jobs: seq<Piece>, m0: Memory, states: seq<Sys>, events: seq<Event>)
    requires PhaseRun(rows, jobs, m0, states, events) && RowsDisjoint(rows)
    requires Drained(states[|states| - 1], jobs)
    ensures var s := states[|states| - 1]; s.pipe.out == s.pipe.handed && |s.pipe.out| == |jobs|
  {
    PhaseInv(rows, jobs, m0, states, events, |states| - 1);
  }

  // ---------------------------------------------------------------- progress

  /** Bytes of the jobs from `n` on. */
  function BytesFrom(jobs: seq<Piece>, n: nat): nat
    requires n <= |jobs|
    decreases |jobs| - n
  {
    if n == |jobs| then 0 else jobs[n].size + BytesFrom(jobs, n + 1)
  }

  /** Bytes still to copy, plus what the pipeline has left to do. */
  function PhaseWork(jobs: seq<Piece>, s: Sys): int
    requires |s.pipe.buf| == 2 && s.pipe.produced <= |jobs|
  {
    BytesFrom(jobs, s.pipe.produced) - (if s.pipe.filling then |Staged(s)| else 0) + Remaining(s.pipe, |jobs|)
  }

  lemma {:induction false} WorkLeft(rows: seq<Row>, jobs: seq<Piece>, m0: Memory, s: Sys)
    requires SysInv(rows, jobs, m0, s)
    ensures |s.pipe.buf| == 2 && s.pipe.produced <= |jobs| && PhaseWork(jobs, s) >= 0
  {
  }

  lemma {:induction false} EventKeepsInv(rows: seq<Row>, jobs: seq<Piece>, m0: Memory, s: Sys, e: Event)
    requires SysInv(rows, jobs, m0, s) && CanStep(rows, jobs, s, e) && RowsDisjoint(rows)
    ensures SysInv(rows, jobs, m0, After(rows, jobs, s, e))
  {
    if AppEvent(e) {
      AppKeepsInv(rows, jobs, m0, s, e);
    } else if e.Copy? {
      CopyKeepsInv(rows, jobs, m0, s);
    } else {
      PipelineKeepsInv(rows, jobs, m0, s, e.step);
    }
    hide SysInv, CanStep, After;
  }

  /** Application events leave the phase's work as it is; every event of the copying
      threads leaves less. */
  lemma {:induction false} EventsShorten(rows: seq<Row>, jobs: seq<Piece>, m0: Memory, s: Sys, e: Event)
    requires SysInv(rows, jobs, m0, s) && CanStep(rows, jobs, s, e) && RowsDisjoint(rows)
    ensures SysInv(rows, jobs, m0, After(rows, jobs, s, e))
    ensures var s' := After(rows, jobs, s, e);
            && |s'.pipe.buf| == 2 && s'.pipe.produced <= |jobs| && 0 <= PhaseWork(jobs, s')
            && (AppEvent(e) ==> PhaseWork(jobs, s') == PhaseWork(jobs, s) && s'.pipe == s.pipe)
            && (!AppEvent(e) ==> PhaseWork(jobs, s') < PhaseWork(jobs, s))
  {
    EventKeepsInv(rows, jobs, m0, s, e);
    WorkLeft(rows, jobs, m0, After(rows, jobs, s, e));
    if !AppEvent(e) {
      CopyingShortens(rows, jobs, m0, s, e);
    }
    hide SysInv, PhaseWork;
  }

  lemma {:induction false} CopyingShortens(rows: seq<Row>, jobs: seq<Piece>, m0: Memory, s: Sys, e: Event)
    requires SysInv(rows, jobs, m0, s) && CanStep(rows, jobs, s, e) && !AppEvent(e)
    ensures var s' := After(rows, jobs, s, e);
            |s'.pipe.buf| == 2 && s'.pipe.produced <= |jobs| && PhaseWork(jobs, s') < PhaseWork(jobs, s)
  {
    hide Agrees, Owns, Untouched;
  }

  /** A phase never deadlocks: until the consumer has exited the copying threads can go
      on without the application, and the producer stops early only on a failed copy. */
  lemma {:induction false} PhaseProgress(rows: seq<Row>, jobs: seq<Piece>, m0: Memory, s: Sys) returns (e: Event)
    requires SysInv(rows, jobs, m0, s) && RowsDisjoint(rows) && !s.pipe.consumer.Exited?
    ensures !AppEvent(e) && CanStep(rows, jobs, s, e)
    ensures e == Pipeline(Finish) ==> s.pipe.produced == |jobs|
    ensures var s' := After(rows, jobs, s, e);
            && SysInv(rows, jobs, m0, s') && |s'.pipe.buf| == 2 && s'.pipe.produced <= |jobs|
            && 0 <= PhaseWork(jobs, s') < PhaseWork(jobs, s)
  {
    var step := Progress(s.pipe, |jobs|);
    e := if step.HandOff? && |Staged(s)| < jobs[s.pipe.produced].size then Copy else Pipeline(step);
    assert CanStep(rows, jobs, s, e);
    hide SysInv, CanStep, After, PhaseWork;
    EventsShorten(rows, jobs, m0, s, e);
  }

  /** A chain of events of the copying threads alone. */
  ghost predicate CopyingRun(rows: seq<Row>, jobs: seq<Piece>, states: seq<Sys>, events: seq<Event>) {
    && |states| == |events| + 1
    && forall i :: 0 <= i < |events| ==>
         && !AppEvent(events[i])
         && |states[i].marks| == |rows| && |states[i].pipe.buf| == 2 && |states[i].pipe.ready| == 2
         && CanStep(rows, jobs, states[i], events[i]) && states[i + 1] == After(rows, jobs, states[i], events[i])
  }

  /** From every reachable state of a phase in which no copy has failed, the copying
      threads can run the phase to its end by themselves. */
  lemma {:induction false} CanDrain(rows: seq<Row>, jobs: seq<Piece>, m0: Memory, s: Sys) returns (states: seq<Sys>, events: seq<Event>)
    requires SysInv(rows, jobs, m0, s) && RowsDisjoint(rows) && (s.pipe.done ==> s.pipe.produced == |jobs|)
    ensures CopyingRun(rows, jobs, states, events) && states[0] == s && Drained(states[|events|], jobs)
    decreases (WorkLeft(rows, jobs, m0, s); PhaseWork(jobs, s))
  {
    if s.pipe.consumer.Exited? {
      states, events := [s], [];
    } else {
      var e := PhaseProgress(rows, jobs, m0, s);
      StillWhole(rows, jobs, m0, s, e);
      var more, rest := CanDrain(rows, jobs, m0, After(rows, jobs, s, e));
      states, events := [s] + more, [e] + rest;
      CopyingPrepend(rows, jobs, s, e, more, rest);
    }
  }

  /** A producer that stops only at the last job never leaves one out. */
  lemma {:induction false} StillWhole(rows: seq<Row>, jobs: seq<Piece>, m0: Memory, s: Sys, e: Event)
    requires SysInv(rows, jobs, m0, s) && CanStep(rows, jobs, s, e) && !AppEvent(e)
    requires (s.pipe.done ==> s.pipe.produced == |jobs|) && (e == Pipeline(Finish) ==> s.pipe.produced == |jobs|)
    ensures var s' := After(rows, jobs, s, e); s'.pipe.done ==> s'.pipe.produced == |jobs|
  {
    hide Agrees, Owns, Untouched;
  }

  lemma {:induction false} CopyingPrepend(rows: seq<Row>, jobs: seq<Piece>, s: Sys, e: Event, states: seq<Sys>, events: seq<Event>)
    requires |s.marks| == |rows| && |s.pipe.buf| == 2 && |s.pipe.ready| == 2
    requires CanStep(rows, jobs, s, e) && !AppEvent(e)
    requires CopyingRun(rows, jobs, states, events) && states[0] == After(rows, jobs, s, e)
    ensures CopyingRun(rows, jobs, [s] + states, [e] + events) && ([s] + states)[|events| + 1] == states[|events|]
  {
    hide CanStep, After;
  }

  /** In no run of a phase, whatever the application does, do the copying threads take
      more steps than the work they began with. */
  lemma {:induction false} PhaseEnds(rows: seq<Row>, jobs: seq<Piece>, m0: Memory, states: seq<Sys>, events: seq<Event>, n: nat)
    requires PhaseRun(rows, jobs, m0, states, events) && RowsDisjoint(rows) && n < |states|
    ensures |states[n].pipe.buf| == 2 && states[n].pipe.produced <= |jobs|
    ensures CopyingSteps(events, n) + PhaseWork(jobs, states[n]) <= BytesFrom(jobs, 0) + 5 * |jobs| + 2
    ensures 0 <= PhaseWork(jobs, states[n])
  {
    if n == 0 {
    } else {
      PhaseEnds(rows, jobs, m0, states, events, n - 1);
      PhaseInv(rows, jobs, m0, states, events, n - 1);
      assert states[n] == After(rows, jobs, states[n - 1], events[n - 1]);
      EventsShorten(rows, jobs, m0, states[n - 1], events[n - 1]);
      hide SysInv, PhaseWork, CanStep, After;
    }
  }

  /** How many of the first `n` events are the copying threads'. */
  function CopyingSteps(events: seq<Event>, n: nat): nat
    requires n <= |events|
  {
    if n == 0 then 0 else CopyingSteps(events, n - 1) + if AppEvent(events[n - 1]) then 0 else 1
  }

  // --------------------------------------------------------------------- IVs

  const CRYPTO_PAGE: nat := 0x20_0000
  const IV_PER_ALLOC: nat := 4096

  function CryptoPages(size: nat): nat {
    (size + CRYPTO_PAGE - 1) / CRYPTO_PAGE
  }

  /** Pages of the first `n` chunks; each chunk's counters start where those before end. */
  function PagesUpTo(jobs: seq<Piece>, n: nat): nat
    requires n <= |jobs|
  {
    if n == 0 then 0 else PagesUpTo(jobs, n - 1) + CryptoPages(jobs[n - 1].size)
  }

  /** Some page of chunk `j` is encrypted under `iv` in a phase that starts at `base`. */
  predicate UsedBy(jobs: seq<Piece>, base: nat, j: nat, iv: nat)
    requires j < |jobs|
  {
    base + PagesUpTo(jobs, j) <= iv < base + PagesUpTo(jobs, j) + CryptoPages(jobs[j].size)
  }

  ghost predicate Uses(jobs: seq<Piece>, base: nat, iv: nat) {
    exists j :: 0 <= j < |jobs| && UsedBy(jobs, base, j, iv)
  }

  lemma {:induction false} UsedCounters(jobs: seq<Piece>, n: nat, base: nat, iv: nat)
    requires n <= |jobs|
    ensures base <= iv < base + PagesUpTo(jobs, n) <==> exists j :: 0 <= j < n && UsedBy(jobs, base, j, iv)
  {
    hide CryptoPages;
    if n > 0 {
      UsedCounters(jobs, n - 1, base, iv);
      assert base + PagesUpTo(jobs, n - 1) <= iv < base + PagesUpTo(jobs, n) <==> UsedBy(jobs, base, n - 1, iv);
      hide UsedBy;
    }
  }

  /** Phase 2 counts from 0 and Phase 4 from 4096 per snapshotted allocation: within a
      round no counter serves twice exactly when Phase 2 needs no more than that or
      Phase 4 copies nothing. */
  lemma {:induction false} PhaseIvsApart(base: seq<Piece>, delta: seq<Piece>, snapped: nat)
    ensures (forall iv: nat :: !(Uses(base, 0, iv) && Uses(delta, IV_PER_ALLOC * snapped, iv))) <==>
            PagesUpTo(base, |base|) <= IV_PER_ALLOC * snapped || PagesUpTo(delta, |delta|) == 0
  {
    var start := IV_PER_ALLOC * snapped;
    forall iv: nat
      ensures Uses(base, 0, iv) <==> iv < PagesUpTo(base, |base|)
      ensures Uses(delta, start, iv) <==> start <= iv < start + PagesUpTo(delta, |delta|)
    {
      UsedCounters(base, |base|, 0, iv);
      UsedCounters(delta, |delta|, start, iv);
    }
    hide Uses, PagesUpTo, UsedBy;
    if !(PagesUpTo(base, |base|) <= start || PagesUpTo(delta, |delta|) == 0) {
      assert Uses(base, 0, start) && Uses(delta, start, start);
    }
  }

  /** One allocation of more than 4096 crypto pages that is written during Phase 2: the
      counter 4096 encrypts a page of both phases. */
  lemma {:induction false} HugeAllocReusesIv()
    ensures var size := CRYPTO_PAGE * (IV_PER_ALLOC + 1);
            var rows := [Row(CRYPTO_PAGE, size, At(0), true, false)];
            var snap := SnapUpTo(rows, 1);
            && |snap| == 1 && snap[0].idx == 0
            && var base, delta := JobsUpTo(rows, snap, 1, false, size), JobsUpTo(WithMarks(rows, [true]), snap, 1, true, size);
               Uses(base, 0, IV_PER_ALLOC) && Uses(delta, IV_PER_ALLOC * |snap|, IV_PER_ALLOC)
  {
    var size := CRYPTO_PAGE * (IV_PER_ALLOC + 1);
    var rows := [Row(CRYPTO_PAGE, size, At(0), true, false)];
    assert SnapUpTo(rows, 0) == [];
    var snap := SnapUpTo(rows, 1);
    assert snap == [SnapEnt(CRYPTO_PAGE, size, 0)];
    var p := Piece(CRYPTO_PAGE, size, 0);
    CutNothing(p, size);
    CutStep(p, 0, size, size);
    assert JobsUpTo(rows, snap, 0, false, size) == [];
    var marked := WithMarks(rows, [true]);
    assert JobsUpTo(marked, snap, 0, true, size) == [];
    var jobs := [p];
    assert CutUpTo(p, size, size) == jobs;
    assert JobsUpTo(rows, snap, 1, false, size) == jobs && JobsUpTo(marked, snap, 1, true, size) == jobs;
    assert CryptoPages(size) == IV_PER_ALLOC + 1;
    assert PagesUpTo(jobs, 0) == 0;
    assert UsedBy(jobs, 0, 0, IV_PER_ALLOC) && UsedBy(jobs, IV_PER_ALLOC, 0, IV_PER_ALLOC);
  }
}
