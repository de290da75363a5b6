/** GCR's byte-range dirty set: a merging interval set kept in address order,
    and the generated reshape-and-cache template that feeds it. */
module DirtySet {

  /** A half-open byte range [start, end). */
  datatype Range = Range(start: nat, end: nat)

  /** The set's ordering: `a` precedes `b` only when they do not even touch. */
  predicate Before(a: Range, b: Range) {
    a.end < b.start
  }

  /** Non-empty, sorted, disjoint and non-touching ranges. */
  ghost predicate Canonical(rs: seq<Range>) {
    && (forall i :: 0 <= i < |rs| ==> rs[i].start < rs[i].end)
    && (forall i, j :: 0 <= i < j < |rs| ==> Before(rs[i], rs[j]))
  }

  ghost predicate Covers(rs: seq<Range>, a: int) {
    exists i :: 0 <= i < |rs| && rs[i].start <= a < rs[i].end
  }

  function Min(a: nat, b: nat): nat { if a <= b then a else b }

  function Max(a: nat, b: nat): nat { if a <= b then b else a }

  /** Number of leading ranges that lie entirely below `start` without touching it
      (`lower_bound`). */
  function LowerBound(rs: seq<Range>, start: nat): (n: nat)
    ensures n <= |rs|
    ensures forall i :: 0 <= i < n ==> rs[i].end < start
    ensures n < |rs| ==> start <= rs[n].end
  {
    if |rs| > 0 && rs[0].end < start then 1 + LowerBound(rs[1..], start) else 0
  }

  /** Least index whose range lies entirely above `end` without touching it
      (`upper_bound`). */
  function UpperBound(rs: seq<Range>, end: nat): (n: nat)
    ensures n <= |rs|
    ensures forall i :: 0 <= i < n ==> rs[i].start <= end
    ensures n < |rs| ==> end < rs[n].start
  {
    if |rs| > 0 && rs[0].start <= end then 1 + UpperBound(rs[1..], end) else 0
  }

  function MergedStart(rs: seq<Range>, start: nat): (s: nat)
    ensures s <= start && forall i :: 0 <= i < |rs| ==> s <= rs[i].start
  {
    if rs == [] then start else Min(MergedStart(rs[..|rs| - 1], start), rs[|rs| - 1].start)
  }

  function MergedEnd(rs: seq<Range>, end: nat): (e: nat)
    ensures end <= e && forall i :: 0 <= i < |rs| ==> rs[i].end <= e
  {
    if rs == [] then end else Max(MergedEnd(rs[..|rs| - 1], end), rs[|rs| - 1].end)
  }

  lemma {:induction false} MergedStartFrom(rs: seq<Range>, start: nat) returns (k: nat)
    requires MergedStart(rs, start) != start
    ensures k < |rs| && rs[k].start == MergedStart(rs, start)
  {
    k := |rs| - 1;
    if MergedStart(rs, start) != rs[k].start {
      k := MergedStartFrom(rs[..k], start);
    }
  }

  lemma {:induction false} MergedEndFrom(rs: seq<Range>, end: nat) returns (k: nat)
    requires MergedEnd(rs, end) != end
    ensures k < |rs| && rs[k].end == MergedEnd(rs, end)
  {
    k := |rs| - 1;
    if MergedEnd(rs, end) != rs[k].end {
      k := MergedEndFrom(rs[..k], end);
    }
  }

  /** The set after inserting [start, end). An empty range changes nothing. */
  function Insert(rs: seq<Range>, start: nat, end: nat): seq<Range> {
    if start >= end then rs else
      var lo, hi := LowerBound(rs, start), UpperBound(rs, end);
      if hi < lo then rs else
        rs[..lo] + [Range(MergedStart(rs[lo..hi], start), MergedEnd(rs[lo..hi], end))] + rs[hi..]
  }

  function InsertAll(rs: seq<Range>, ops: seq<Range>): seq<Range> {
    if ops == [] then rs
    else Insert(InsertAll(rs, ops[..|ops| - 1]), ops[|ops| - 1].start, ops[|ops| - 1].end)
  }

  lemma {:induction false} BoundsOrdered(rs: seq<Range>, start: nat, end: nat)
    requires Canonical(rs) && start < end
    ensures LowerBound(rs, start) <= UpperBound(rs, end)
  {
    var lo, hi := LowerBound(rs, start), UpperBound(rs, end);
    if hi < lo {
      assert false;
    }
  }

  /** Inserting keeps the set canonical and adds exactly the inserted bytes. */
  lemma {:induction false} InsertCorrect(rs: seq<Range>, start: nat, end: nat)
    requires Canonical(rs)
    ensures Canonical(Insert(rs, start, end))
    ensures forall a :: Covers(Insert(rs, start, end), a) <==> Covers(rs, a) || start <= a < end
  {
    if start < end {
      MergedApart(rs, start, end);
      InsertKeepsOrder(rs, start, end);
      forall a ensures Covers(Insert(rs, start, end), a) <==> Covers(rs, a) || start <= a < end {
        CoversAfterInsert(rs, start, end, a);
      }
    }
  }

  /** The merged range touches neither the ranges kept below nor those kept above. */
  lemma {:induction false} MergedApart(rs: seq<Range>, start: nat, end: nat)
    requires Canonical(rs) && start < end
    ensures var lo, hi := LowerBound(rs, start), UpperBound(rs, end);
            && lo <= hi
            && (forall i :: 0 <= i < lo ==> rs[i].end < MergedStart(rs[lo..hi], start))
            && (forall j :: hi <= j < |rs| ==> MergedEnd(rs[lo..hi], end) < rs[j].start)
  {
    BoundsOrdered(rs, start, end);
    var lo, hi := LowerBound(rs, start), UpperBound(rs, end);
    var mid := rs[lo..hi];
    forall i | 0 <= i < lo ensures rs[i].end < MergedStart(mid, start) {
      if MergedStart(mid, start) != start {
        var k := MergedStartFrom(mid, start);
        assert Before(rs[i], rs[lo + k]);
      }
    }
    forall j | hi <= j < |rs| ensures MergedEnd(mid, end) < rs[j].start {
      FirstIsLeast(rs, hi, j);
      if MergedEnd(mid, end) != end {
        var k := MergedEndFrom(mid, end);
        assert Before(rs[lo + k], rs[j]);
      }
    }
  }

  lemma {:induction false} InsertKeepsOrder(rs: seq<Range>, start: nat, end: nat)
    requires Canonical(rs) && start < end
    ensures Canonical(Insert(rs, start, end))
  {
    MergedApart(rs, start, end);
    var lo, hi := LowerBound(rs, start), UpperBound(rs, end);
    var m := Range(MergedStart(rs[lo..hi], start), MergedEnd(rs[lo..hi], end));
    AppendAbove(rs[..lo], m);
    var below := rs[..lo] + [m];
    var above := rs[hi..];
    forall i, j | 0 <= i < |below| && 0 <= j < |above| ensures Before(below[i], above[j]) {
      assert i < lo ==> Before(rs[i], rs[hi + j]);
    }
    CanonicalConcat(below, above);
  }

  lemma {:induction false} AppendAbove(rs: seq<Range>, m: Range)
    requires Canonical(rs) && m.start < m.end
    requires forall i :: 0 <= i < |rs| ==> Before(rs[i], m)
    ensures Canonical(rs + [m])
  {
  }

  lemma {:induction false} CanonicalConcat(x: seq<Range>, y: seq<Range>)
    requires Canonical(x) && Canonical(y)
    requires forall i, j :: 0 <= i < |x| && 0 <= j < |y| ==> Before(x[i], y[j])
    ensures Canonical(x + y)
  {
  }

  lemma {:induction false} CoversConcat(x: seq<Range>, y: seq<Range>, a: int)
    ensures Covers(x + y, a) <==> Covers(x, a) || Covers(y, a)
  {
    if Covers(x, a) {
      var i :| 0 <= i < |x| && x[i].start <= a < x[i].end;
      assert (x + y)[i] == x[i];
    }
    if Covers(y, a) {
      var i :| 0 <= i < |y| && y[i].start <= a < y[i].end;
      assert (x + y)[|x| + i] == y[i];
    }
  }

  lemma {:induction false} CoversAfterInsert(rs: seq<Range>, start: nat, end: nat, a: int)
    requires Canonical(rs) && start < end
    ensures Covers(Insert(rs, start, end), a) <==> Covers(rs, a) || start <= a < end
  {
    BoundsOrdered(rs, start, end);
    var lo, hi := LowerBound(rs, start), UpperBound(rs, end);
    var m := Range(MergedStart(rs[lo..hi], start), MergedEnd(rs[lo..hi], end));
    MiddleMerged(rs, lo, hi, start, end, a);
    CoversSplit(rs, lo, hi, a);
    CoversConcat(rs[..lo] + [m], rs[hi..], a);
    CoversConcat(rs[..lo], [m], a);
    hide Covers, Canonical;
  }

  lemma {:induction false} CoversSplit(rs: seq<Range>, lo: nat, hi: nat, a: int)
    requires lo <= hi <= |rs|
    ensures Covers(rs, a) <==> Covers(rs[..lo], a) || Covers(rs[lo..hi], a) || Covers(rs[hi..], a)
  {
    assert rs == rs[..lo] + rs[lo..hi] + rs[hi..];
    CoversConcat(rs[..lo] + rs[lo..hi], rs[hi..], a);
    CoversConcat(rs[..lo], rs[lo..hi], a);
    hide Covers;
  }

  lemma {:induction false} MiddleMerged(rs: seq<Range>, lo: nat, hi: nat, start: nat, end: nat, a: int)
    requires Canonical(rs) && start < end
    requires lo == LowerBound(rs, start) <= hi == UpperBound(rs, end)
    ensures var m := Range(MergedStart(rs[lo..hi], start), MergedEnd(rs[lo..hi], end));
            && (Covers(rs[lo..hi], a) || start <= a < end ==> Covers([m], a))
            && (Covers([m], a) ==> Covers(rs, a) || start <= a < end)
  {
    var m := Range(MergedStart(rs[lo..hi], start), MergedEnd(rs[lo..hi], end));
    assert [m][0] == m;
    if Covers([m], a) {
      MergedPieceCovered(rs, lo, hi, start, end, a);
    }
  }

  /** Every byte of the merged range was covered already or is inserted. */
  lemma {:induction false} MergedPieceCovered(rs: seq<Range>, lo: nat, hi: nat, start: nat, end: nat, a: int)
    requires Canonical(rs) && start < end
    requires lo == LowerBound(rs, start) <= hi == UpperBound(rs, end)
    requires MergedStart(rs[lo..hi], start) <= a < MergedEnd(rs[lo..hi], end)
    ensures Covers(rs, a) || start <= a < end
  {
    var mid := rs[lo..hi];
    if a < start {
      var k := MergedStartFrom(mid, start);
      assert mid[k] == rs[lo + k];
      FirstIsLeast(rs, lo, lo + k);
      assert rs[lo].start <= a < rs[lo].end;
    } else if end <= a {
      var k := MergedEndFrom(mid, end);
      assert mid[k] == rs[lo + k];
      assert rs[lo + k].start <= a < rs[lo + k].end;
    }
  }

  lemma {:induction false} FirstIsLeast(rs: seq<Range>, i: nat, j: nat)
    requires Canonical(rs) && i <= j < |rs|
    ensures rs[i].start <= rs[j].start
  {
    if i < j {
      assert Before(rs[i], rs[j]);
    }
  }

  lemma {:induction false} InsertAllCorrect(rs: seq<Range>, ops: seq<Range>)
    requires Canonical(rs)
    ensures Canonical(InsertAll(rs, ops))
    ensures forall a :: Covers(InsertAll(rs, ops), a) <==> Covers(rs, a) || Covers(ops, a)
  {
    if ops == [] {
    } else {
      var init, last := ops[..|ops| - 1], ops[|ops| - 1];
      InsertAllCorrect(rs, init);
      InsertCorrect(InsertAll(rs, init), last.start, last.end);
      assert ops == init + [last];
      forall a ensures Covers(ops, a) <==> Covers(init, a) || last.start <= a < last.end {
        CoversConcat(init, [last], a);
        assert [last][0] == last;
      }
    }
  }

  /** A canonical set is determined by the bytes it covers. */
  lemma {:induction false} CanonicalUnique(x: seq<Range>, y: seq<Range>)
    requires Canonical(x) && Canonical(y)
    requires forall a :: Covers(x, a) <==> Covers(y, a)
    ensures x == y
    decreases |x|
  {
    if x == [] {
      if y != [] { assert Covers(y, y[0].start); }
    } else {
      assert Covers(x, x[0].start);
      FirstRangesEqual(x, y);
      forall a ensures Covers(x[1..], a) <==> Covers(y[1..], a) {
        CoversTail(x, a);
        CoversTail(y, a);
      }
      CanonicalUnique(x[1..], y[1..]);
      assert x == [x[0]] + x[1..] && y == [y[0]] + y[1..];
    }
  }

  lemma {:induction false} CoversTail(x: seq<Range>, a: int)
    requires Canonical(x) && x != []
    ensures Covers(x[1..], a) <==> Covers(x, a) && x[0].end <= a
  {
    if Covers(x[1..], a) {
      var i :| 0 <= i < |x| - 1 && x[1..][i].start <= a < x[1..][i].end;
      assert x[i + 1] == x[1..][i] && Before(x[0], x[i + 1]);
    }
    if Covers(x, a) && x[0].end <= a {
      var i :| 0 <= i < |x| && x[i].start <= a < x[i].end;
      assert x[1..][i - 1] == x[i];
    }
  }

  lemma {:induction false} FirstRangesEqual(x: seq<Range>, y: seq<Range>)
    requires Canonical(x) && Canonical(y) && x != [] && y != []
    requires forall a :: Covers(x, a) <==> Covers(y, a)
    ensures x[0] == y[0]
  {
    assert Covers(x, x[0].start) && Covers(y, y[0].start);
    StartIsLeast(x, y[0].start);
    StartIsLeast(y, x[0].start);
    if x[0].end < y[0].end {
      assert Covers(y, x[0].end);
      EndIsGap(x);
    } else if y[0].end < x[0].end {
      assert Covers(x, y[0].end);
      EndIsGap(y);
    }
  }

  lemma {:induction false} StartIsLeast(x: seq<Range>, a: int)
    requires Canonical(x) && Covers(x, a)
    ensures x[0].start <= a
  {
    var i :| 0 <= i < |x| && x[i].start <= a < x[i].end;
    assert i == 0 || Before(x[0], x[i]);
  }

  lemma {:induction false} EndIsGap(x: seq<Range>)
    requires Canonical(x) && x != []
    ensures !Covers(x, x[0].end)
  {
    forall i | 0 < i < |x| ensures x[0].end < x[i].start {
      assert Before(x[0], x[i]);
    }
  }

  /** The set does not depend on the order of insertion, nor on how the bytes
      were cut into ranges: only the union matters. */
  lemma {:induction false} OrderIndependent(rs: seq<Range>, ops1: seq<Range>, ops2: seq<Range>)
    requires Canonical(rs)
    requires forall a :: Covers(ops1, a) <==> Covers(ops2, a)
    ensures InsertAll(rs, ops1) == InsertAll(rs, ops2)
  {
    InsertAllCorrect(rs, ops1);
    InsertAllCorrect(rs, ops2);
    CanonicalUnique(InsertAll(rs, ops1), InsertAll(rs, ops2));
  }

  lemma {:induction false} InsertAllAppend(rs: seq<Range>, ops1: seq<Range>, ops2: seq<Range>)
    ensures InsertAll(rs, ops1 + ops2) == InsertAll(InsertAll(rs, ops1), ops2)
    decreases |ops2|
  {
    if ops2 == [] {
      assert ops1 + ops2 == ops1;
    } else {
      InsertAllAppend(rs, ops1, ops2[..|ops2| - 1]);
      assert (ops1 + ops2)[..|ops1 + ops2| - 1] == ops1 + ops2[..|ops2| - 1];
    }
  }

  lemma {:induction false} MergedStep(rs: seq<Range>, lo: nat, at: nat, start: nat, end: nat)
    requires lo <= at < |rs|
    ensures MergedStart(rs[lo..at + 1], start) == Min(MergedStart(rs[lo..at], start), rs[at].start)
    ensures MergedEnd(rs[lo..at + 1], end) == Max(MergedEnd(rs[lo..at], end), rs[at].end)
  {
    assert rs[lo..at + 1][..at - lo] == rs[lo..at];
  }

  lemma {:induction false} DropAt(rs: seq<Range>, lo: nat, at: nat)
    requires lo <= at < |rs|
    ensures var left := rs[..lo] + rs[at..];
            left[lo] == rs[at] && left[..lo] + left[lo + 1..] == rs[..lo] + rs[at + 1..]
  {
  }

  /** The shared dirty set; every method body runs under the set's lock. */
  class DirtyAddresses {
    var ranges: seq<Range>

    constructor ()
      ensures ranges == [] && Canonical(ranges)
    {
      ranges := [];
    }

    method AddAndMerge(start: nat, end: nat)
      requires Canonical(ranges)
      modifies this
      ensures ranges == Insert(old(ranges), start, end)
      ensures Canonical(ranges)
      ensures forall a :: Covers(ranges, a) <==> old(Covers(ranges, a)) || start <= a < end
    {
      ghost var was := ranges;
      InsertCorrect(was, start, end);
      if start >= end { return; }
      BoundsOrdered(was, start, end);
      var lo := FindLower(start);
      var hi := FindUpper(end);
      var mergedStart, mergedEnd := EraseTouching(lo, hi, start, end);
      ranges := ranges[..lo] + [Range(mergedStart, mergedEnd)] + ranges[lo..];   // emplace
    }

    /** Erase the ranges lo..hi one by one, widening [start, end) by each. */
    method EraseTouching(lo: nat, hi: nat, start: nat, end: nat) returns (mergedStart: nat, mergedEnd: nat)
      requires lo <= hi <= |ranges|
      modifies this
      ensures ranges == old(ranges[..lo] + ranges[hi..])
      ensures mergedStart == MergedStart(old(ranges[lo..hi]), start)
      ensures mergedEnd == MergedEnd(old(ranges[lo..hi]), end)
    {
      ghost var was := ranges;
      mergedStart, mergedEnd := start, end;
      var at := lo;
      while at < hi
        invariant lo <= at <= hi
        invariant ranges == was[..lo] + was[at..]
        invariant mergedStart == MergedStart(was[lo..at], start)
        invariant mergedEnd == MergedEnd(was[lo..at], end)
      {
        hide MergedStart, MergedEnd;
        MergedStep(was, lo, at, start, end);
        mergedStart := Min(mergedStart, ranges[lo].start);
        mergedEnd := Max(mergedEnd, ranges[lo].end);
        DropAt(was, lo, at);
        ranges := ranges[..lo] + ranges[lo + 1..];   // erase
        at := at + 1;
      }
    }

    method FindLower(start: nat) returns (lo: nat)
      requires Canonical(ranges)
      ensures lo == LowerBound(ranges, start)
    {
      lo := 0;
      while lo < |ranges| && ranges[lo].end < start
        invariant lo <= |ranges| && LowerBound(ranges, start) == lo + LowerBound(ranges[lo..], start)
      {
        assert ranges[lo..][1..] == ranges[lo + 1..];
        lo := lo + 1;
      }
    }

    method FindUpper(end: nat) returns (hi: nat)
      requires Canonical(ranges)
      ensures hi == UpperBound(ranges, end)
    {
      hi := 0;
      while hi < |ranges| && ranges[hi].start <= end
        invariant hi <= |ranges| && UpperBound(ranges, end) == hi + UpperBound(ranges[hi..], end)
      {
        assert ranges[hi..][1..] == ranges[hi + 1..];
        hi := hi + 1;
      }
    }

    /** Copy the first `max` ranges out, with the number of bytes they hold. */
    method Snapshot(max: nat) returns (out: seq<Range>, total: nat)
      requires Canonical(ranges)
      ensures out == ranges[..Min(max, |ranges|)] && total == TotalBytes(out)
    {
      out, total := [], 0;
      var n := 0;
      while n < |ranges| && n < max
        invariant n <= |ranges| && n <= max
        invariant out == ranges[..n] && total == TotalBytes(out)
      {
        assert (out + [ranges[n]])[..n] == out;
        out := out + [ranges[n]];
        total := total + (ranges[n].end - ranges[n].start);
        n := n + 1;
      }
    }

    method Clear()
      modifies this
      ensures ranges == []
    {
      ranges := [];
    }
  }

  function TotalBytes(rs: seq<Range>): int {
    if rs == [] then 0
    else TotalBytes(rs[..|rs| - 1]) + (rs[|rs| - 1].end - rs[|rs| - 1].start)
  }
}
