/** GCR's allocation table: image slots from a bump pointer, deferred frees, and
    dirty marks clipped to the allocation they start in. */
module GcrTable {
  import opened Chunking
  import opened DirtySet
  import opened GcrPacking

  const MAX_ALLOCS: nat := 4096

  datatype Table = Table(rows: seq<Alloc>, used: nat)

  /** The table after a successful device allocation. The image bytes are taken
      even when the table has no row left. */
  function Recorded(t: Table, imageSize: nat, va: nat, size: nat): Table {
    if va == 0 || size == 0 then t
    else
      var fits := t.used + size <= imageSize;
      Table(
        if |t.rows| < MAX_ALLOCS then t.rows + [Alloc(va, size, if fits then At(t.used) else NoSlot, true, false)] else t.rows,
        if fits then t.used + size else t.used)
  }

  /** A free retires its row at once, or after the round when one is in flight. */
  function Retired(rows: seq<Alloc>, addr: nat, inFlight: bool): seq<Alloc> {
    var i := FindAlloc(rows, addr);
    if addr == 0 || i == |rows| then rows
    else if inFlight then rows[i := rows[i].(pendingDrop := true)]
    else rows[i := rows[i].(alive := false)]
  }

  function Swept(rows: seq<Alloc>): (r: seq<Alloc>)
    ensures |r| == |rows|
    ensures forall i :: 0 <= i < |r| ==>
              r[i] == if rows[i].alive && rows[i].pendingDrop then rows[i].(alive := false, pendingDrop := false) else rows[i]
  {
    seq(|rows|, i requires 0 <= i < |rows| =>
      if rows[i].alive && rows[i].pendingDrop then rows[i].(alive := false, pendingDrop := false) else rows[i])
  }

  /** The dirty set after marking `size` bytes at `va`: no further than the end of
      the allocation holding `va`, or raw when no live allocation does. */
  function Marked(rows: seq<Alloc>, dirty: seq<Range>, va: nat, size: nat): seq<Range> {
    var i := FindAlloc(rows, va);
    if size == 0 then dirty
    else if i == |rows| then Insert(dirty, va, va + size)
    else Insert(dirty, va, Min(va + size, rows[i].va + rows[i].size))
  }

  predicate Owns(r: Alloc, a: int) {
    r.alive && r.va <= a < r.va + r.size
  }

  /** Image slots lie one after another below the bump pointer. */
  ghost predicate SlotsApart(t: Table, imageSize: nat) {
    && t.used <= imageSize
    && (forall i :: 0 <= i < |t.rows| && t.rows[i].slot.At? ==> t.rows[i].slot.offset + t.rows[i].size <= t.used)
    && (forall i, j :: 0 <= i < j < |t.rows| && t.rows[i].slot.At? && t.rows[j].slot.At? ==>
          t.rows[i].slot.offset + t.rows[i].size <= t.rows[j].slot.offset)
  }

  ghost predicate LiveApart(rows: seq<Alloc>) {
    forall i, j, a :: 0 <= i < |rows| && 0 <= j < |rows| && Owns(rows[i], a) && Owns(rows[j], a) ==> i == j
  }

  /** Rows are never reused: an old row keeps its place, and at most dies. */
  ghost predicate Evolves(old_: seq<Alloc>, new_: seq<Alloc>) {
    |old_| <= |new_| && forall i :: 0 <= i < |old_| ==>
      && new_[i].va == old_[i].va && new_[i].size == old_[i].size && new_[i].slot == old_[i].slot
      && (new_[i].alive ==> old_[i].alive)
  }

  lemma {:induction false} RecordedKeepsSlots(t: Table, imageSize: nat, va: nat, size: nat)
    requires SlotsApart(t, imageSize)
    ensures SlotsApart(Recorded(t, imageSize, va, size), imageSize)
    ensures Evolves(t.rows, Recorded(t, imageSize, va, size).rows)
  {
  }

  lemma {:induction false} RetiredKeepsSlots(t: Table, imageSize: nat, addr: nat, inFlight: bool)
    requires SlotsApart(t, imageSize)
    ensures SlotsApart(t.(rows := Retired(t.rows, addr, inFlight)), imageSize)
    ensures Evolves(t.rows, Retired(t.rows, addr, inFlight))
  {
  }

  /** A table that only evolves keeps its live allocations apart and its slots. */
  lemma {:induction false} EvolvesKeepsApart(t: Table, rows: seq<Alloc>, imageSize: nat)
    requires SlotsApart(t, imageSize) && LiveApart(t.rows)
    requires Evolves(t.rows, rows) && |rows| == |t.rows|
    ensures SlotsApart(t.(rows := rows), imageSize) && LiveApart(rows)
  {
    forall i, j, a | 0 <= i < |rows| && 0 <= j < |rows| && Owns(rows[i], a) && Owns(rows[j], a) ensures i == j {
      assert Owns(t.rows[i], a) && Owns(t.rows[j], a);
    }
  }

  class GcrAllocs {
    var rows: seq<Alloc>
    var imageUsed: nat
    const imageSize: nat        // 0 when there is no image backing
    const dirty: DirtyAddresses

    ghost predicate Valid()
      reads this, dirty
    {
      SlotsApart(Table(rows, imageUsed), imageSize) && Canonical(dirty.ranges)
    }

    constructor (imageSize: nat)
      ensures Valid() && fresh(dirty) && rows == [] && dirty.ranges == [] && this.imageSize == imageSize
    {
      this.imageSize := imageSize;
      rows, imageUsed := [], 0;
      dirty := new DirtyAddresses();
    }

    method ReserveSlot(size: nat) returns (slot: Slot)
      modifies this`imageUsed
      ensures slot == if size > 0 && old(imageUsed) + size <= imageSize then At(old(imageUsed)) else NoSlot
      ensures imageUsed == old(imageUsed) + if slot.At? then size else 0
    {
      if size == 0 || imageUsed + size > imageSize { return NoSlot; }
      slot := At(imageUsed);
      imageUsed := imageUsed + size;
    }

    method RecordAlloc(va: nat, size: nat)
      requires Valid()
      modifies this
      ensures Valid()
      ensures Table(rows, imageUsed) == Recorded(old(Table(rows, imageUsed)), imageSize, va, size)
    {
      RecordedKeepsSlots(Table(rows, imageUsed), imageSize, va, size);
      if va == 0 || size == 0 { return; }
      var slot := ReserveSlot(size);
      if |rows| < MAX_ALLOCS {
        rows := rows + [Alloc(va, size, slot, true, false)];
      }
    }

    method RetireAlloc(addr: nat, inFlight: bool)
      requires Valid()
      modifies this`rows
      ensures Valid()
      ensures rows == Retired(old(rows), addr, inFlight)
    {
      RetiredKeepsSlots(Table(rows, imageUsed), imageSize, addr, inFlight);
      if addr == 0 { return; }
      var i := FindAlloc(rows, addr);
      if i < |rows| {
        rows := rows[i := if inFlight then rows[i].(pendingDrop := true) else rows[i].(alive := false)];
      }
    }

    method SweepPendingDrops() returns (swept: nat)
      requires Valid()
      modifies this`rows
      ensures Valid()
      ensures rows == Swept(old(rows))
      ensures swept == 0 <==> rows == old(rows)
    {
      swept := 0;
      ghost var was := rows;
      for i := 0 to |rows|
        invariant Valid() && |rows| == |was|
        invariant forall k :: 0 <= k < i ==> rows[k] == Swept(was)[k]
        invariant forall k :: i <= k < |rows| ==> rows[k] == was[k]
        invariant swept == 0 ==> rows == was
        invariant swept > 0 ==> exists k :: 0 <= k < i && rows[k] != was[k]
      {
        if rows[i].pendingDrop && rows[i].alive {
          rows := rows[i := rows[i].(alive := false, pendingDrop := false)];
          swept := swept + 1;
        }
      }
    }

    method MarkRange(va: nat, size: nat)
      requires Valid()
      modifies dirty
      ensures Valid()
      ensures dirty.ranges == Marked(rows, old(dirty.ranges), va, size)
    {
      hide Canonical, Covers, SlotsApart, Insert;
      if size == 0 { return; }
      var i := FindAlloc(rows, va);
      if i < |rows| {
        var s, e := rows[i].va, rows[i].va + rows[i].size;
        var lo := if va > s then va else s;
        var hi := if va + size < e then va + size else e;
        if hi > lo { dirty.AddAndMerge(lo, hi); }
        return;
      }
      dirty.AddAndMerge(va, va + size);
    }
  }

  /** Marking adds the marked bytes of one allocation, never bytes past its end. */
  lemma {:induction false} MarkedCovers(rows: seq<Alloc>, dirty: seq<Range>, va: nat, size: nat, a: int)
    requires Canonical(dirty)
    ensures Canonical(Marked(rows, dirty, va, size))
    ensures Covers(dirty, a) ==> Covers(Marked(rows, dirty, va, size), a)
    ensures forall i :: 0 <= i < |rows| && Owns(rows[i], va) && LiveApart(rows) ==>
              (Covers(Marked(rows, dirty, va, size), a) <==>
                Covers(dirty, a) || (Owns(rows[i], a) && va <= a < va + size))
  {
    hide Canonical, Covers, Insert;
    var i := FindAlloc(rows, va);
    var end := if i == |rows| then va + size else Min(va + size, rows[i].va + rows[i].size);
    if size > 0 {
      InsertKeepsOrder(dirty, va, end);
      CoversAfterInsert(dirty, va, end, a);
    }
    assert i < |rows| ==> Owns(rows[i], va);
  }
}
