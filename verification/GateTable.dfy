/** The gate's allocation table: entries are appended as the application allocates and
    flagged, never removed, as it frees; the agent and the baseline read prefixes of it. */
module GateTable {
  import opened BaselineV4

  const MAX_ENTRIES: nat := 2715

  /** Index of the most recent live entry at `va` among the first `n`, or -1. */
  function LastLive(entries: seq<Entry>, n: nat, va: nat): (i: int)
    requires n <= |entries|
    ensures -1 <= i < n
    ensures i >= 0 ==> entries[i].va == va && !entries[i].freed
    ensures forall k :: i < k < n ==> entries[k].va != va || entries[k].freed
  {
    if n == 0 then -1
    else if entries[n - 1].va == va && !entries[n - 1].freed then n - 1
    else LastLive(entries, n - 1, va)
  }

  function Recorded(entries: seq<Entry>, va: nat, size: nat): seq<Entry> {
    if va == 0 || |entries| >= MAX_ENTRIES then entries else entries + [Entry(va, size, false)]
  }

  function Freed(entries: seq<Entry>, va: nat): seq<Entry> {
    var i := LastLive(entries, |entries|, va);
    if va == 0 || i < 0 then entries else entries[i := entries[i].(freed := true)]
  }

  class AllocTable {
    const table: array<Entry>
    var count: nat
    var userVa: nat        // the largest allocation ever asked for
    var userSize: nat

    ghost predicate Valid()
      reads this, table
    {
      table.Length == MAX_ENTRIES && count <= MAX_ENTRIES && forall i :: 0 <= i < count ==> table[i].size <= userSize
    }

    ghost function Entries(): seq<Entry>
      reads this, table
      requires Valid()
    {
      table[..count]
    }

    constructor ()
      ensures Valid() && fresh(table) && Entries() == [] && userSize == 0
    {
      table := new Entry[MAX_ENTRIES](_ => Entry(0, 0, false));
      count, userVa, userSize := 0, 0, 0;
    }

    method RecordAlloc(va: nat, size: nat)
      requires Valid()
      modifies this, table
      ensures Valid() && Entries() == Recorded(old(Entries()), va, size)
      ensures (userVa, userSize) == if va != 0 && size > old(userSize) then (va, size) else (old(userVa), old(userSize))
    {
      if va == 0 { return; }
      if size > userSize {
        userVa, userSize := va, size;
      }
      if count < MAX_ENTRIES {
        table[count] := Entry(va, size, false);
        count := count + 1;
      }
    }

    /** Walks the table from the end. */
    method MarkFreed(va: nat)
      requires Valid()
      modifies table
      ensures Valid() && Entries() == Freed(old(Entries()), va)
    {
      if va == 0 { return; }
      ghost var entries := Entries();
      var i: nat := count;
      while i > 0
        invariant i <= count && Valid() && Entries() == entries
        invariant LastLive(entries, count, va) == LastLive(entries, i, va)
      {
        i := i - 1;
        if table[i].va == va && !table[i].freed {
          table[i] := table[i].(freed := true);
          return;
        }
      }
    }
  }

  // ------------------------------------------------------------ what it means

  /** The list without its last range at `va`. */
  function WithoutLast(live: seq<Range>, va: nat): seq<Range> {
    if live == [] then []
    else
      var rest, last := live[..|live| - 1], live[|live| - 1];
      if last.va == va then rest else WithoutLast(rest, va) + [last]
  }

  lemma {:induction false} LiveSnoc(entries: seq<Entry>, e: Entry)
    ensures Live(entries + [e]) == if e.freed then Live(entries) else Live(entries) + [Range(e.va, e.size)]
  {
    assert (entries + [e])[..|entries|] == entries;
  }

  lemma {:induction false} LastLivePrefix(entries: seq<Entry>, e: Entry, n: nat, va: nat)
    requires n <= |entries|
    ensures LastLive(entries + [e], n, va) == LastLive(entries, n, va)
  {
    if n > 0 {
      LastLivePrefix(entries, e, n - 1, va);
    }
  }

  /** A free takes exactly the most recent live allocation at its address off the list
      that the baseline copies, and nothing else. */
  lemma {:induction false} FreedTakesLast(entries: seq<Entry>, va: nat)
    requires va != 0
    ensures Live(Freed(entries, va)) == WithoutLast(Live(entries), va)
  {
    if entries != [] {
      var n := |entries| - 1;
      var rest, e := entries[..n], entries[n];
      assert entries == rest + [e];
      LiveSnoc(rest, e);
      FreedTakesLast(rest, va);
      LastLivePrefix(rest, e, n, va);
      if e.va == va && !e.freed {
        assert Freed(entries, va) == rest + [e.(freed := true)];
        LiveSnoc(rest, e.(freed := true));
        SnocWithout(Live(rest), Range(e.va, e.size), va);
      } else {
        assert Freed(entries, va) == Freed(rest, va) + [e];
        LiveSnoc(Freed(rest, va), e);
        SnocWithout(Live(rest), Range(e.va, e.size), va);
      }
    }
  }

  lemma {:induction false} SnocWithout(live: seq<Range>, r: Range, va: nat)
    ensures WithoutLast(live + [r], va) == if r.va == va then live else WithoutLast(live, va) + [r]
  {
    assert (live + [r])[..|live|] == live;
  }

  /** Allocating and freeing again leaves the list as it was, even when the address had
      been live before. */
  lemma {:induction false} FreeUndoesRecord(entries: seq<Entry>, va: nat, size: nat)
    requires va != 0 && |entries| < MAX_ENTRIES
    ensures Live(Freed(Recorded(entries, va, size), va)) == Live(entries)
  {
    FreedTakesLast(Recorded(entries, va, size), va);
    LiveSnoc(entries, Entry(va, size, false));
    SnocWithout(Live(entries), Range(va, size), va);
    hide Freed, WithoutLast;
  }

  datatype Op = Record(va: nat, size: nat) | Free(va: nat)

  function Apply(entries: seq<Entry>, ops: seq<Op>): seq<Entry> {
    if ops == [] then entries
    else
      var before, op := Apply(entries, ops[..|ops| - 1]), ops[|ops| - 1];
      if op.Record? then Recorded(before, op.va, op.size) else Freed(before, op.va)
  }

  /** Whatever the application does later, an entry keeps its index, address and size,
      and once freed stays so: a reader may take any prefix it has seen. */
  lemma {:induction false} PrefixStays(entries: seq<Entry>, ops: seq<Op>, i: nat)
    requires i < |entries|
    ensures i < |Apply(entries, ops)| && Apply(entries, ops)[i].va == entries[i].va && Apply(entries, ops)[i].size == entries[i].size
    ensures entries[i].freed ==> Apply(entries, ops)[i].freed
  {
    if ops != [] {
      PrefixStays(entries, ops[..|ops| - 1], i);
    }
  }

  ghost predicate LiveApart(entries: seq<Entry>) {
    forall i, j, a :: 0 <= i < j < |entries| && !entries[i].freed && !entries[j].freed ==>
      !(InBlock(Range(entries[i].va, entries[i].size), a) && InBlock(Range(entries[j].va, entries[j].size), a))
  }

  /** The allocator hands out memory that is not in use. */
  ghost predicate Handed(entries: seq<Entry>, op: Op) {
    op.Record? ==> forall i, a :: 0 <= i < |entries| && !entries[i].freed ==>
      !(InBlock(Range(entries[i].va, entries[i].size), a) && InBlock(Range(op.va, op.size), a))
  }

  /** So the live entries are always disjoint, as the baseline's ranges must be. */
  lemma {:induction false} LiveStaysApart(ops: seq<Op>)
    requires forall k :: 0 <= k < |ops| ==> Handed(Apply([], ops[..k]), ops[k])
    ensures LiveApart(Apply([], ops))
  {
    if ops != [] {
      var n := |ops| - 1;
      assert forall k :: 0 <= k < n ==> ops[..n][..k] == ops[..k] && ops[..n][k] == ops[k];
      LiveStaysApart(ops[..n]);
      assert Handed(Apply([], ops[..n]), ops[n]);
      OpKeepsApart(Apply([], ops[..n]), ops[n]);
    }
  }

  lemma {:induction false} OpKeepsApart(entries: seq<Entry>, op: Op)
    requires LiveApart(entries) && Handed(entries, op)
    ensures LiveApart(if op.Record? then Recorded(entries, op.va, op.size) else Freed(entries, op.va))
  {
  }
}
