/** Cutting a run of device bytes into staging-sized chunks, shared by both
    emulators. */
module Chunking {
  import opened Arith

  /** A run of device bytes with its destination in the image. */
  datatype Piece = Piece(va: nat, size: nat, img: nat)

  /** Where an allocation lives in the image, if it got a place. */
  datatype Slot = NoSlot | At(offset: nat)

  /** The first `copied` bytes of a piece, cut at the staging size. */
  function CutUpTo(p: Piece, copied: nat, staging: nat): seq<Piece>
    requires staging > 0
  {
    if copied == 0 then []
    else
      var start := copied - 1 - (copied - 1) % staging;
      CutUpTo(p, start, staging) + [Piece(p.va + start, copied - start, p.img + start)]
  }

  function SumSizes(ps: seq<Piece>): nat {
    if ps == [] then 0 else SumSizes(ps[..|ps| - 1]) + ps[|ps| - 1].size
  }

  lemma {:induction false} CutNothing(p: Piece, staging: nat)
    requires staging > 0
    ensures CutUpTo(p, 0, staging) == [] && 0 % staging == 0
  {
    ModShift(0, 0, staging);
  }

  lemma {:induction false} CutStep(p: Piece, copied: nat, size: nat, staging: nat)
    requires 0 < size <= staging && copied % staging == 0
    ensures CutUpTo(p, copied + size, staging)
         == CutUpTo(p, copied, staging) + [Piece(p.va + copied, size, p.img + copied)]
    ensures (copied + staging) % staging == 0
  {
    ModShift(copied, size - 1, staging);
  }

  /** `ps` sends device byte `a` to image byte `x`. */
  ghost predicate Carries(ps: seq<Piece>, a: int, x: int) {
    exists k :: 0 <= k < |ps| && ps[k].va <= a < ps[k].va + ps[k].size && x == ps[k].img + (a - ps[k].va)
  }

  lemma {:induction false} CarriesConcat(ps: seq<Piece>, qs: seq<Piece>, a: int, x: int)
    ensures Carries(ps + qs, a, x) <==> Carries(ps, a, x) || Carries(qs, a, x)
  {
    if Carries(ps, a, x) {
      var k :| 0 <= k < |ps| && ps[k].va <= a < ps[k].va + ps[k].size && x == ps[k].img + (a - ps[k].va);
      assert (ps + qs)[k] == ps[k];
    }
    if Carries(qs, a, x) {
      var k :| 0 <= k < |qs| && qs[k].va <= a < qs[k].va + qs[k].size && x == qs[k].img + (a - qs[k].va);
      assert (ps + qs)[|ps| + k] == qs[k];
    }
  }

  /** The cuts tile the piece: every byte is carried, to its own place, and the
      sizes add up, so none is carried twice. */
  lemma {:induction false} CutTiles(p: Piece, copied: nat, staging: nat)
    requires staging > 0
    ensures forall k :: 0 <= k < |CutUpTo(p, copied, staging)| ==> 0 < CutUpTo(p, copied, staging)[k].size <= staging
    ensures SumSizes(CutUpTo(p, copied, staging)) == copied
    ensures forall a, x :: Carries(CutUpTo(p, copied, staging), a, x)
                      <==> p.va <= a < p.va + copied && x == p.img + (a - p.va)
  {
    if copied > 0 {
      var start := copied - 1 - (copied - 1) % staging;
      CutTiles(p, start, staging);
      var head, last := CutUpTo(p, start, staging), Piece(p.va + start, copied - start, p.img + start);
      assert (head + [last])[..|head|] == head;
      forall a, x ensures Carries(head + [last], a, x) <==> p.va <= a < p.va + copied && x == p.img + (a - p.va) {
        CarriesConcat(head, [last], a, x);
        assert [last][0] == last;
        hide Carries;
      }
    }
  }

  /** The chunk builder's count of the pieces a cut will need. */
  lemma {:induction false} CutCount(p: Piece, copied: nat, staging: nat)
    requires staging > 0
    ensures |CutUpTo(p, copied, staging)| == (copied + staging - 1) / staging
  {
    if copied == 0 {
      DivUnique(staging - 1, 0, staging - 1, staging);
    } else {
      var q, r := (copied - 1) / staging, (copied - 1) % staging;
      var start := copied - 1 - r;
      assert copied - 1 == staging * q + r;
      assert staging * (q + 1) == staging * q + staging;
      CutCount(p, start, staging);
      DivUnique(start + staging - 1, q, staging - 1, staging);
      DivUnique(copied + staging - 1, q + 1, r, staging);
    }
  }

  /** Image byte `x` after writing back the first `n` chunks over `before`. */
  function ImageByte(before: nat -> int, ps: seq<Piece>, contents: seq<seq<int>>, n: nat, x: nat): int
    requires n <= |ps| && n <= |contents|
  {
    if n == 0 then before(x)
    else if ps[n - 1].img <= x < ps[n - 1].img + |contents[n - 1]| then contents[n - 1][x - ps[n - 1].img]
    else ImageByte(before, ps, contents, n - 1, x)
  }

  /** When every chunk that reaches `x` brings the same value, that is what stays. */
  lemma {:induction false} ImageByteAgreed(before: nat -> int, ps: seq<Piece>, contents: seq<seq<int>>, n: nat, x: nat, v: int)
    requires n <= |ps| && n <= |contents|
    requires forall k :: 0 <= k < n && ps[k].img <= x < ps[k].img + |contents[k]| ==> contents[k][x - ps[k].img] == v
    requires exists k :: 0 <= k < n && ps[k].img <= x < ps[k].img + |contents[k]|
    ensures ImageByte(before, ps, contents, n, x) == v
  {
    if ps[n - 1].img <= x < ps[n - 1].img + |contents[n - 1]| {
    } else {
      ImageByteAgreed(before, ps, contents, n - 1, x, v);
    }
  }
}
