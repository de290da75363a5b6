/** Bytes and the little-endian words the image headers are made of. */
module Bytes {

  type byte = x: int | 0 <= x < 256

  /** 256 to the `w`. */
  function Span(w: nat): nat {
    if w == 0 then 1 else 256 * Span(w - 1)
  }

  /** The low `w` bytes of `n`, least significant first. */
  function Le(n: nat, w: nat): (s: seq<byte>)
    ensures |s| == w
  {
    if w == 0 then [] else [n % 256] + Le(n / 256, w - 1)
  }

  function FromLe(s: seq<byte>): nat {
    if s == [] then 0 else s[0] + 256 * FromLe(s[1..])
  }

  /** A value that fits its width is read back as written. */
  lemma {:induction false} LeRoundTrip(n: nat, w: nat)
    requires n < Span(w)
    ensures FromLe(Le(n, w)) == n
  {
    if w > 0 {
      assert n / 256 < Span(w - 1);
      LeRoundTrip(n / 256, w - 1);
      assert Le(n, w)[1..] == Le(n / 256, w - 1);
    }
  }

  lemma {:induction false} SpanOf48()
    ensures Span(4) == 0x1_0000_0000 && Span(8) == 0x1_0000_0000_0000_0000
  {
    assert Span(4) == 0x1_0000_0000;
    assert Span(6) == 0x1_0000_0000_0000;
  }

  /** The words of `ws`, eight bytes each. */
  function Words(ws: seq<nat>): (s: seq<byte>)
    ensures |s| == 8 * |ws|
  {
    if ws == [] then [] else Words(ws[..|ws| - 1]) + Le(ws[|ws| - 1], 8)
  }

  ghost predicate U64(n: int) { 0 <= n < 0x1_0000_0000_0000_0000 }

  ghost predicate U32(n: int) { 0 <= n < 0x1_0000_0000 }

  /** Word `i` sits at byte 8 * i. */
  lemma {:induction false} WordAt(ws: seq<nat>, i: nat)
    requires i < |ws|
    ensures Words(ws)[8 * i..8 * i + 8] == Le(ws[i], 8)
  {
    var n := |ws| - 1;
    if i < n {
      WordAt(ws[..n], i);
      assert Words(ws)[8 * i..8 * i + 8] == Words(ws[..n])[8 * i..8 * i + 8];
    }
  }

  lemma {:induction false} WordRead(ws: seq<nat>, i: nat)
    requires i < |ws| && U64(ws[i])
    ensures FromLe(Words(ws)[8 * i..8 * i + 8]) == ws[i]
  {
    WordAt(ws, i);
    SpanOf48();
    LeRoundTrip(ws[i], 8);
  }
}
