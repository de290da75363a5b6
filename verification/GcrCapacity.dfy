/** GCR allows one staging slot more than there are dirty ranges. Bounding the slots by the
    bytes cannot be done better: a family of dirty sets that are one step beyond the bound
    and need a slot more than allowed. */
module GcrCapacity {
  import opened Arith
  import opened Chunking
  import opened DirtySet
  import opened GcrPacking

  /** Two ranges of a buffer and a byte, then buffers and single bytes in turn. */
  function SizeOf(k: nat, staging: nat): nat {
    if k < 2 then staging + 1 else if k % 2 == 0 then staging else 1
  }

  function StartOf(k: nat, staging: nat): nat {
    if k == 0 then 0 else StartOf(k - 1, staging) + staging + 2
  }

  function Tight(n: nat, staging: nat): (rs: seq<Range>)
    ensures |rs| == n
    ensures forall k :: 0 <= k < n ==> rs[k] == Range(StartOf(k, staging), StartOf(k, staging) + SizeOf(k, staging))
  {
    if n == 0 then []
    else Tight(n - 1, staging) + [Range(StartOf(n - 1, staging), StartOf(n - 1, staging) + SizeOf(n - 1, staging))]
  }

  /** One allocation over all of them. */
  function Over(size: nat): seq<Alloc> {
    [Alloc(0, size, At(0), true, false)]
  }

  lemma {:induction false} StartsApart(j: nat, k: nat, staging: nat)
    requires j < k
    ensures StartOf(j, staging) + staging + 2 <= StartOf(k, staging)
  {
    if j + 1 < k {
      StartsApart(j, k - 1, staging);
    }
  }

  /** The family is made of dirty sets. */
  lemma {:induction false} TightCanonical(n: nat, staging: nat)
    requires staging > 0
    ensures Canonical(Tight(n, staging))
  {
    forall j, k | 0 <= j < k < n ensures Before(Tight(n, staging)[j], Tight(n, staging)[k]) {
      StartsApart(j, k, staging);
    }
  }

  lemma {:induction false} ClipWhole(size: nat, r: Range)
    requires r.start < r.end <= size
    ensures Clip(Over(size), r) == Piece(r.start, r.end - r.start, r.start)
  {
    assert FindAlloc(Over(size), r.start) == 0;
  }

  /** What the ranges are cut into. */
  lemma {:induction false} CutOf(p: Piece, staging: nat)
    requires staging > 0
    ensures p.size == staging + 1 ==>
              CutUpTo(p, p.size, staging) == [Piece(p.va, staging, p.img), Piece(p.va + staging, 1, p.img + staging)]
    ensures 0 < p.size <= staging ==> CutUpTo(p, p.size, staging) == [p]
  {
    CutNothing(p, staging);
    if p.size == staging + 1 {
      CutStep(p, 0, staging, staging);
      CutStep(p, staging, 1, staging);
    } else if 0 < p.size <= staging {
      CutStep(p, 0, p.size, staging);
    }
    hide CutUpTo;
  }

  /** Buffers and single bytes in turn. */
  predicate Alternates(ps: seq<Piece>, staging: nat) {
    forall j :: 0 <= j < |ps| ==> ps[j].size == if j % 2 == 0 then staging else 1
  }

  function TotalOf(n: nat, staging: nat): nat {
    if n == 0 then 0 else TotalOf(n - 1, staging) + SizeOf(n - 1, staging)
  }

  lemma {:induction false} AlternatePush(ps: seq<Piece>, q: Piece, staging: nat)
    requires Alternates(ps, staging) && q.size == if |ps| % 2 == 0 then staging else 1
    ensures Alternates(ps + [q], staging)
  {
  }

  lemma {:induction false} AlternateSum(ps: seq<Piece>, k: nat, staging: nat)
    requires Alternates(ps, staging) && k + 1 < |ps|
    ensures ps[k].size + ps[k + 1].size == staging + 1
  {
  }

  /** The pieces of the last of `n` ranges, which starts at `s`. */
  function LastCut(n: nat, s: nat, staging: nat): seq<Piece>
    requires n > 0
  {
    if n < 3 then [Piece(s, staging, s), Piece(s + staging, 1, s + staging)] else [Piece(s, SizeOf(n - 1, staging), s)]
  }

  lemma {:induction false} CutLast(n: nat, size: nat, staging: nat)
    requires staging > 1 && n > 0 && StartOf(n, staging) <= size
    ensures var rs, s := Tight(n, staging), StartOf(n - 1, staging);
            && rs[..n - 1] == Tight(n - 1, staging) && Clip(Over(size), rs[n - 1]).size == SizeOf(n - 1, staging)
            && CutAll(Over(size), rs, staging) == CutAll(Over(size), Tight(n - 1, staging), staging) +
               LastCut(n, s, staging)
  {
    var rs := Tight(n, staging);
    assert rs[..n - 1] == Tight(n - 1, staging);
    ClipWhole(size, rs[n - 1]);
    CutOf(Clip(Over(size), rs[n - 1]), staging);
    hide Clip, CutUpTo, Over, Tight;
  }

  lemma {:induction false} AlternateTwo(ps: seq<Piece>, q: Piece, r: Piece, staging: nat)
    requires Alternates(ps, staging) && |ps| % 2 == 0 && q.size == staging && r.size == 1
    ensures Alternates(ps + [q, r], staging)
  {
    AlternatePush(ps, q, staging);
    AlternatePush(ps + [q], r, staging);
    assert ps + [q, r] == ps + [q] + [r];
  }

  /** The next range continues the turns. */
  lemma {:induction false} AlternateNext(ps: seq<Piece>, n: nat, s: nat, staging: nat)
    requires Alternates(ps, staging) && n > 0 && |ps| == if n < 3 then 2 * (n - 1) else n + 1
    ensures var qs := ps + LastCut(n, s, staging); Alternates(qs, staging) && |qs| == if n < 2 then 2 * n else n + 2
  {
    hide Alternates;
    if n < 3 {
      AlternateTwo(ps, Piece(s, staging, s), Piece(s + staging, 1, s + staging), staging);
    } else {
      AlternatePush(ps, Piece(s, SizeOf(n - 1, staging), s), staging);
    }
  }

  lemma {:induction false} TightCuts(n: nat, size: nat, staging: nat)
    requires staging > 1 && StartOf(n, staging) <= size
    ensures var ps := CutAll(Over(size), Tight(n, staging), staging);
            Alternates(ps, staging) && |ps| == if n < 2 then 2 * n else n + 2
  {
    NoCuts(size, staging);
    if n > 0 {
      StartsApart(n - 1, n, staging);
    }
    hide Over, StartOf, Tight, CutAll, Alternates, Clip, SizeOf, LastCut;
    if n > 0 {
      TightCuts(n - 1, size, staging);
      CutLast(n, size, staging);
      AlternateNext(CutAll(Over(size), Tight(n - 1, staging), staging), n, StartOf(n - 1, staging), staging);
    }
  }

  lemma {:induction false} NoCuts(size: nat, staging: nat)
    requires staging > 0
    ensures CutAll(Over(size), Tight(0, staging), staging) == [] && Alternates([], staging)
  {
  }

  lemma {:induction false} TightTotal(n: nat, size: nat, staging: nat)
    requires staging > 1 && StartOf(n, staging) <= size
    ensures ClippedTotal(Over(size), Tight(n, staging)) == TotalOf(n, staging)
  {
    if n > 0 {
      StartsApart(n - 1, n, staging);
      TightTotal(n - 1, size, staging);
      CutLast(n, size, staging);
      hide Over, StartOf, Tight, CutAll, Clip, SizeOf;
    }
  }

  lemma {:induction false} TotalOfPairs(m: nat, staging: nat)
    requires m > 0
    ensures TotalOf(2 * m, staging) == staging * (m + 1) + (m + 1)
  {
    if m > 1 {
      TotalOfPairs(m - 1, staging);
      assert staging * (m + 1) == staging * m + staging;
    } else {
      assert TotalOf(2, staging) == TotalOf(1, staging) + SizeOf(1, staging);
    }
  }

  /** Of chunks that go in turn no two share a slot. */
  lemma {:induction false} NoTwo(chunks: seq<Chunk>, p: Pack, staging: nat)
    requires PackOk(chunks, p, staging) && Alternates(Pieces(chunks), staging)
    ensures p.count == 1
  {
    if p.count > 1 {
      PackedDisjoint(chunks, p, staging, p.first, p.first + 1);
      AlternateSum(Pieces(chunks), p.first, staging);
      assert false;
    }
    hide Alternates;
  }

  lemma {:induction false} OneEach(chunks: seq<Chunk>, packs: seq<Pack>, staging: nat, k: nat)
    requires staging > 0 && WellPacked(chunks, packs, staging) && Alternates(Pieces(chunks), staging) && k <= |packs|
    ensures PackEnd(packs, k) == k
  {
    hide PackOk, Alternates, Follows;
    if k > 0 {
      OneEach(chunks, packs, staging, k - 1);
      PackSpan(chunks, packs, staging, k - 1);
      NoTwo(chunks, packs[k - 1], staging);
    }
  }

  /** For every even number `n` of dirty ranges, `2 * total / staging` can be just above `n`
      and the slots needed above the allowance of `n + 1`: the bound on the bytes is tight. */
  lemma {:induction false} CapacityIsTight(m: nat, staging: nat, chunks: seq<Chunk>, packs: seq<Pack>)
    requires 0 < m && m + 1 < staging
    requires var n := 2 * m; Pieces(chunks) == CutAll(Over(StartOf(n, staging)), Tight(n, staging), staging)
    requires WellPacked(chunks, packs, staging)
    ensures var n := 2 * m;
            && |Tight(n, staging)| == n && Canonical(Tight(n, staging))
            && 2 * (ClippedTotal(Over(StartOf(n, staging)), Tight(n, staging)) / staging) == n + 2
            && |packs| == n + 2
  {
    var n := 2 * m;
    TightCanonical(n, staging);
    TightCuts(n, StartOf(n, staging), staging);
    TightTotal(n, StartOf(n, staging), staging);
    TotalOfPairs(m, staging);
    DivUnique(TotalOf(n, staging), m + 1, m + 1, staging);
    OneEach(chunks, packs, staging, |packs|);
    hide Tight, CutAll, ClippedTotal, TotalOf, StartOf;
  }
}
