/** Multi-threaded page encryption: the pages are split among threads, each page sealed
    under its own counter IV. AES-256-GCM itself is an abstract cipher. */
module PageCrypto {
  import opened Bytes
  import opened Partition

  datatype Option<T> = None | Some(value: T)

  const TAG_BYTES: nat := 16

  datatype PageMeta = PageMeta(iv: seq<byte>, tag: seq<byte>)

  /** One key of an authenticated cipher: `seal` gives ciphertext and tag, `unseal`
      fails on anything that was not sealed so. */
  datatype Cipher = Cipher(seal: (seq<byte>, seq<byte>) -> (seq<byte>, seq<byte>), unseal: (PageMeta, seq<byte>) -> Option<seq<byte>>) {
    ghost predicate Sound() {
      forall iv, page :: |seal(iv, page).0| == |page| && |seal(iv, page).1| == TAG_BYTES
                         && unseal(PageMeta(iv, seal(iv, page).1), seal(iv, page).0) == Some(page)
    }
  }

  /** Fixed field "CKPT", then the counter in little-endian; counters wrap at 2^64. */
  function BuildIv(counter: nat): (iv: seq<byte>)
    ensures |iv| == 12
  {
    [0x43, 0x4B, 0x50, 0x54] + Le(counter, 8)
  }

  /** Different counters below 2^64 give different IVs. */
  lemma {:induction false} BuildIvInjective(a: nat, b: nat)
    requires U64(a) && U64(b) && BuildIv(a) == BuildIv(b)
    ensures a == b
  {
    SpanOf48();
    LeRoundTrip(a, 8);
    LeRoundTrip(b, 8);
    assert BuildIv(a)[4..] == Le(a, 8) && BuildIv(b)[4..] == Le(b, 8);
  }

  // ------------------------------------------------------------------ workers

  /** Threads working through their spans: `next[t]` is thread t's next page, `out` the
      pages done, `order` the pages in the order they were attempted. */
  datatype Work<R> = Work(next: seq<nat>, stopped: seq<bool>, out: seq<Option<R>>, order: seq<nat>)

  function StartWork<R>(n: nat, threads: nat): Work<R>
    requires threads > 0
  {
    Work(seq(threads, (t: nat) => ShareStart(n, threads, t)), seq(threads, _ => false), seq(n, _ => None), [])
  }

  ghost predicate CanStep<R>(n: nat, w: Work<R>, t: nat) {
    |w.stopped| == |w.next| && |w.out| == n && t < |w.next| && !w.stopped[t] && w.next[t] < n
    && w.next[t] < ShareStart(n, |w.next|, t + 1)
  }

  /** Thread `t` does its next page; on failure it breaks off. */
  function After<R>(n: nat, f: nat -> Option<R>, w: Work<R>, t: nat): Work<R>
    requires CanStep(n, w, t)
  {
    var i := w.next[t];
    if f(i).Some? then w.(next := w.next[t := i + 1], out := w.out[i := f(i)], order := w.order + [i])
    else w.(stopped := w.stopped[t := true], order := w.order + [i])
  }

  ghost predicate ThreadOk<R>(n: nat, f: nat -> Option<R>, w: Work<R>, t: nat)
    requires t < |w.next| == |w.stopped| && |w.out| == n
  {
    var lo, hi := ShareStart(n, |w.next|, t), ShareStart(n, |w.next|, t + 1);
    && lo <= w.next[t] <= hi <= n
    && (forall i :: lo <= i < w.next[t] ==> f(i).Some? && w.out[i] == f(i))
    && (w.stopped[t] ==> w.next[t] < hi && f(w.next[t]) == None)
    && (forall i :: w.next[t] <= i < hi && i in w.order ==> w.stopped[t] && i == w.next[t])
  }

  ghost predicate Inv<R>(n: nat, f: nat -> Option<R>, w: Work<R>) {
    && |w.stopped| == |w.next| > 0 && |w.out| == n
    && (forall t :: 0 <= t < |w.next| ==> ThreadOk(n, f, w, t))
    && (forall a, b :: 0 <= a < b < |w.order| ==> w.order[a] != w.order[b])
  }

  lemma {:induction false} StartInv<R>(n: nat, f: nat -> Option<R>, threads: nat)
    requires threads > 0
    ensures Inv(n, f, StartWork<R>(n, threads))
  {
    var w := StartWork<R>(n, threads);
    forall t | 0 <= t < threads ensures ThreadOk(n, f, w, t) {
      SharesOrdered(n, threads, t, t + 1);
      SharesOrdered(n, threads, t + 1, threads);
      SharesCover(n, threads);
    }
    hide ThreadOk;
  }

  lemma {:induction false} OwnThread<R>(n: nat, f: nat -> Option<R>, w: Work<R>, t: nat)
    requires Inv(n, f, w) && CanStep(n, w, t)
    ensures ThreadOk(n, f, After(n, f, w, t), t)
  {
    assert ThreadOk(n, f, w, t);
    hide ShareStart;
  }

  lemma {:induction false} OtherThread<R>(n: nat, f: nat -> Option<R>, w: Work<R>, t: nat, u: nat)
    requires Inv(n, f, w) && CanStep(n, w, t) && u < |w.next| && u != t
    ensures ThreadOk(n, f, After(n, f, w, t), u)
  {
    assert ThreadOk(n, f, w, t) && ThreadOk(n, f, w, u);
    if t < u {
      SharesOrdered(n, |w.next|, t + 1, u);
    } else {
      SharesOrdered(n, |w.next|, u + 1, t);
    }
    hide ShareStart;
  }

  lemma {:induction false} StepKeepsInv<R>(n: nat, f: nat -> Option<R>, w: Work<R>, t: nat)
    requires Inv(n, f, w) && CanStep(n, w, t)
    ensures Inv(n, f, After(n, f, w, t))
  {
    var w' := After(n, f, w, t);
    assert ThreadOk(n, f, w, t);
    assert w.next[t] !in w.order;
    forall u | 0 <= u < |w.next| ensures ThreadOk(n, f, w', u) {
      if u == t {
        OwnThread(n, f, w, t);
      } else {
        OtherThread(n, f, w, t, u);
      }
    }
    hide ThreadOk, ShareStart;
  }

  ghost predicate Next<R>(n: nat, f: nat -> Option<R>, w: Work<R>, w': Work<R>) {
    exists t :: CanStep(n, w, t) && w' == After(n, f, w, t)
  }

  ghost predicate Run<R>(n: nat, f: nat -> Option<R>, threads: nat, trace: seq<Work<R>>) {
    && threads > 0 && trace != [] && trace[0] == StartWork<R>(n, threads)
    && forall k :: 0 < k < |trace| ==> Next(n, f, trace[k - 1], trace[k])
  }

  lemma {:induction false} RunKeepsInv<R>(n: nat, f: nat -> Option<R>, threads: nat, trace: seq<Work<R>>, k: nat)
    requires Run(n, f, threads, trace) && k < |trace|
    ensures Inv(n, f, trace[k]) && |trace[k].next| == threads
  {
    hide Inv;
    if k == 0 {
      StartInv(n, f, threads);
    } else {
      RunKeepsInv(n, f, threads, trace, k - 1);
      assert Next(n, f, trace[k - 1], trace[k]);
      var t :| CanStep(n, trace[k - 1], t) && trace[k] == After(n, f, trace[k - 1], t);
      StepKeepsInv(n, f, trace[k - 1], t);
    }
  }

  /** No thread can go on: all through, or broken off. */
  ghost predicate Joined<R>(n: nat, w: Work<R>) {
    forall t :: 0 <= t < |w.next| ==> !CanStep(n, w, t)
  }

  /** The joined call returns 0. */
  ghost predicate Succeeded<R>(w: Work<R>) {
    forall t :: 0 <= t < |w.stopped| ==> !w.stopped[t]
  }

  /** Whatever the thread count and schedule: no page is worked on twice; and at the join
      the call fails exactly when some page failed, and otherwise every page is done. */
  lemma {:induction false} JoinedAllDone<R>(n: nat, f: nat -> Option<R>, threads: nat, trace: seq<Work<R>>)
    requires Run(n, f, threads, trace) && Joined(n, trace[|trace| - 1])
    ensures var w := trace[|trace| - 1];
            && |w.out| == n && (forall a, b :: 0 <= a < b < |w.order| ==> w.order[a] != w.order[b])
            && (!Succeeded(w) <==> exists i: nat :: i < n && f(i) == None)
            && (Succeeded(w) ==> forall i :: 0 <= i < n ==> w.out[i] == f(i) && f(i).Some?)
  {
    var w := trace[|trace| - 1];
    RunKeepsInv(n, f, threads, trace, |trace| - 1);
    hide Run;
    forall i: nat | i < n ensures f(i) == None ==> !Succeeded(w)
      ensures Succeeded(w) ==> w.out[i] == f(i) && f(i).Some?
    {
      var t := ShareOf(n, threads, i);
      assert ThreadOk(n, f, w, t) && !CanStep(n, w, t);
      hide ShareStart;
    }
    if t :| 0 <= t < |w.stopped| && w.stopped[t] {
      assert ThreadOk(n, f, w, t);
      assert f(w.next[t]) == None;
    }
    hide ShareStart, ThreadOk, Joined;
  }

  // ---------------------------------------------------------------- round trip

  /** Page `i` of an encryption call. */
  function SealPage(c: Cipher, pages: seq<seq<byte>>, base: nat, i: nat): Option<(seq<byte>, PageMeta)>
    requires i < |pages|
  {
    var iv := BuildIv(base + i);
    Some((c.seal(iv, pages[i]).0, PageMeta(iv, c.seal(iv, pages[i]).1)))
  }

  /** Page `i` of a decryption call. */
  function UnsealPage(c: Cipher, cipher: seq<seq<byte>>, metas: seq<PageMeta>, i: nat): Option<seq<byte>>
    requires i < |cipher| && i < |metas|
  {
    c.unseal(metas[i], cipher[i])
  }

  /** The buffers an encryption call leaves behind. */
  ghost predicate Collected(w: Work<(seq<byte>, PageMeta)>, cipher: seq<seq<byte>>, metas: seq<PageMeta>) {
    |cipher| == |metas| == |w.out|
    && forall i :: 0 <= i < |w.out| && w.out[i].Some? ==> cipher[i] == w.out[i].value.0 && metas[i] == w.out[i].value.1
  }

  /** Decrypting what was encrypted gives the pages back, for any two thread counts and
      schedules of the two calls, and neither call reports an error. */
  lemma {:induction false} CryptRoundTrip(c: Cipher, pages: seq<seq<byte>>, base: nat,
                                          sealF: nat -> Option<(seq<byte>, PageMeta)>, threads1: nat, trace1: seq<Work<(seq<byte>, PageMeta)>>,
                                          openF: nat -> Option<seq<byte>>, threads2: nat, trace2: seq<Work<seq<byte>>>,
                                          cipher: seq<seq<byte>>, metas: seq<PageMeta>)
    requires c.Sound()
    requires forall i :: 0 <= i < |pages| ==> sealF(i) == SealPage(c, pages, base, i)
    requires Run(|pages|, sealF, threads1, trace1) && Joined(|pages|, trace1[|trace1| - 1])
    requires |cipher| == |metas| == |pages|
    requires Collected(trace1[|trace1| - 1], cipher, metas)
    requires forall i :: 0 <= i < |pages| ==> openF(i) == UnsealPage(c, cipher, metas, i)
    requires Run(|pages|, openF, threads2, trace2) && Joined(|pages|, trace2[|trace2| - 1])
    ensures Succeeded(trace1[|trace1| - 1]) && Succeeded(trace2[|trace2| - 1])
    ensures var w := trace2[|trace2| - 1]; |w.out| == |pages| && forall i :: 0 <= i < |pages| ==> w.out[i] == Some(pages[i])
  {
    JoinedAllDone(|pages|, sealF, threads1, trace1);
    JoinedAllDone(|pages|, openF, threads2, trace2);
    hide Run, Joined;
    forall i | 0 <= i < |pages| ensures openF(i) == Some(pages[i]) {
      var iv := BuildIv(base + i);
      assert c.unseal(PageMeta(iv, c.seal(iv, pages[i]).1), c.seal(iv, pages[i]).0) == Some(pages[i]);
    }
  }
}
