/** Splitting `n` items among `w` threads: the first `n % w` threads take one more. */
module Partition {
  import opened Arith

  function Share(n: nat, w: nat, t: nat): nat
    requires w > 0
  {
    n / w + if t < n % w then 1 else 0
  }

  /** First item of thread `t`: the shares before it. */
  function ShareStart(n: nat, w: nat, t: nat): nat
    requires w > 0
  {
    if t == 0 then 0 else ShareStart(n, w, t - 1) + Share(n, w, t - 1)
  }

  lemma {:induction false} ShareStartIs(n: nat, w: nat, t: nat)
    requires w > 0
    ensures ShareStart(n, w, t) == t * (n / w) + if t < n % w then t else n % w
  {
    if t > 0 {
      ShareStartIs(n, w, t - 1);
      assert t * (n / w) == (t - 1) * (n / w) + n / w;
    }
  }

  /** The shares add up: nothing is left over and nothing counted twice. */
  lemma {:induction false} SharesCover(n: nat, w: nat)
    requires w > 0
    ensures ShareStart(n, w, w) == n
  {
    ShareStartIs(n, w, w);
    assert n == w * (n / w) + n % w;
  }

  lemma {:induction false} SharesOrdered(n: nat, w: nat, s: nat, t: nat)
    requires w > 0 && s <= t
    ensures ShareStart(n, w, s) <= ShareStart(n, w, t)
  {
    if s < t {
      SharesOrdered(n, w, s, t - 1);
    }
  }

  /** Every item belongs to exactly one thread. */
  lemma {:induction false} ShareOf(n: nat, w: nat, i: nat) returns (t: nat)
    requires w > 0 && i < n
    ensures t < w && ShareStart(n, w, t) <= i < ShareStart(n, w, t + 1)
    ensures forall u :: 0 <= u < w && ShareStart(n, w, u) <= i < ShareStart(n, w, u + 1) ==> u == t
  {
    SharesCover(n, w);
    t := FindShare(n, w, i, w);
    forall u | 0 <= u < w && ShareStart(n, w, u) <= i < ShareStart(n, w, u + 1) ensures u == t {
      if u < t {
        SharesOrdered(n, w, u + 1, t);
      } else if t < u {
        SharesOrdered(n, w, t + 1, u);
      }
    }
  }

  lemma {:induction false} FindShare(n: nat, w: nat, i: nat, hi: nat) returns (t: nat)
    requires w > 0 && i < ShareStart(n, w, hi)
    ensures t < hi && ShareStart(n, w, t) <= i < ShareStart(n, w, t + 1)
  {
    if ShareStart(n, w, hi - 1) <= i {
      t := hi - 1;
    } else {
      t := FindShare(n, w, i, hi - 1);
    }
  }

  /** The partition loop: `bounds[t]` is thread `t`'s half-open span. */
  method Split(n: nat, w: nat) returns (bounds: seq<(nat, nat)>)
    requires w > 0
    ensures |bounds| == w
    ensures forall t :: 0 <= t < w ==> bounds[t] == (ShareStart(n, w, t), ShareStart(n, w, t + 1))
    ensures ShareStart(n, w, 0) == 0 && ShareStart(n, w, w) == n
  {
    bounds := [];
    var next := 0;
    for t := 0 to w
      invariant |bounds| == t && next == ShareStart(n, w, t)
      invariant forall u :: 0 <= u < t ==> bounds[u] == (ShareStart(n, w, u), ShareStart(n, w, u + 1))
    {
      var chunk := n / w + if t < n % w then 1 else 0;
      bounds := bounds + [(next, next + chunk)];
      next := next + chunk;
    }
    SharesCover(n, w);
  }
}
