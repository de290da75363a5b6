/** What a captured range says about memory, page by page: the residency map tells
    which packed section holds the next page. */
module PageMap {
  import opened Arith
  import opened Bytes
  import opened ImageFormat

  datatype Option<T> = None | Some(value: T)

  const ON_CPU: byte := 0
  const ON_GPU: byte := 1

  /** Occurrences of `v` among the first `n` entries. */
  function Count(map_: seq<byte>, v: byte, n: nat): (k: nat)
    requires n <= |map_|
    ensures k <= n
  {
    if n == 0 then 0 else Count(map_, v, n - 1) + if map_[n - 1] == v then 1 else 0
  }

  lemma {:induction false} CountMono(map_: seq<byte>, v: byte, m: nat, n: nat)
    requires m <= n <= |map_|
    ensures Count(map_, v, m) <= Count(map_, v, n)
  {
    if m < n {
      CountMono(map_, v, m, n - 1);
    }
  }

  lemma {:induction false} CountNext(map_: seq<byte>, v: byte, m: nat, n: nat)
    requires m < n <= |map_| && map_[m] == v
    ensures Count(map_, v, m) + 1 <= Count(map_, v, n)
  {
    CountMono(map_, v, m + 1, n);
  }

  /** The packed sections hold a page for every page the map places there. */
  ghost predicate Packed(c: Capture) {
    && PAGE_SIZE * Count(c.resmap, ON_CPU, |c.resmap|) <= |c.cpu|
    && PAGE_SIZE * Count(c.resmap, ON_GPU, |c.resmap|) <= |c.gpu|
  }

  /** Byte `o` of page `p`: from the CPU or the GPU section, at the place given by
      the number of earlier pages there; absent pages have none. */
  ghost function PageByte(c: Capture, p: nat, o: nat): Option<byte>
    requires Packed(c) && p < |c.resmap| && o < PAGE_SIZE
  {
    if c.resmap[p] == ON_CPU then
      CountNext(c.resmap, ON_CPU, p, |c.resmap|);
      Some(c.cpu[PAGE_SIZE * Count(c.resmap, ON_CPU, p) + o])
    else if c.resmap[p] == ON_GPU then
      CountNext(c.resmap, ON_GPU, p, |c.resmap|);
      Some(c.gpu[PAGE_SIZE * Count(c.resmap, ON_GPU, p) + o])
    else None
  }

  ghost predicate InPages(c: Capture, a: int) {
    c.base <= a < c.base + PAGE_SIZE * |c.resmap|
  }

  function PageOf(c: Capture, a: nat): nat
    requires c.base <= a
  {
    (a - c.base) / PAGE_SIZE
  }

  lemma {:induction false} PageInMap(c: Capture, a: nat)
    requires InPages(c, a)
    ensures PageOf(c, a) < |c.resmap|
    ensures a == c.base + PAGE_SIZE * PageOf(c, a) + (a - c.base) % PAGE_SIZE
  {
  }

  /** The captured byte at address `a`, if the range has that page. */
  ghost function CapByte(c: Capture, a: nat): Option<byte>
    requires Packed(c)
  {
    if InPages(c, a) then
      PageInMap(c, a);
      PageByte(c, PageOf(c, a), (a - c.base) % PAGE_SIZE)
    else None
  }

  lemma {:induction false} CapByteAt(c: Capture, p: nat, o: nat)
    requires Packed(c) && p < |c.resmap| && o < PAGE_SIZE
    ensures CapByte(c, c.base + PAGE_SIZE * p + o) == PageByte(c, p, o)
  {
    DivUnique(PAGE_SIZE * p + o, p, o, PAGE_SIZE);
  }

  ghost predicate AllPacked(caps: seq<Capture>) {
    forall i :: 0 <= i < |caps| ==> Packed(caps[i])
  }

  /** The byte at `a` after overlaying the first `n` captures on `under`: the last one
      that has the page wins. */
  ghost function Overlay(caps: seq<Capture>, n: nat, a: nat, under: byte): byte
    requires n <= |caps| && AllPacked(caps)
  {
    if n == 0 then under
    else match CapByte(caps[n - 1], a)
         case Some(v) => v
         case None => Overlay(caps, n - 1, a, under)
  }

  /** No two ranges share an address. */
  ghost predicate Disjoint(caps: seq<Capture>) {
    forall i, j, a :: 0 <= i < |caps| && 0 <= j < |caps| && InPages(caps[i], a) && InPages(caps[j], a) ==> i == j
  }

  lemma {:induction false} OverlayOutside(caps: seq<Capture>, n: nat, a: nat, under: byte)
    requires n <= |caps| && AllPacked(caps)
    requires forall i :: 0 <= i < n ==> !InPages(caps[i], a)
    ensures Overlay(caps, n, a, under) == under
  {
    if n > 0 {
      OverlayOutside(caps, n - 1, a, under);
    }
  }

  /** Over disjoint ranges the overlay is the one range that has the address. */
  lemma {:induction false} OverlayDisjoint(caps: seq<Capture>, n: nat, i: nat, a: nat, under: byte)
    requires AllPacked(caps) && Disjoint(caps) && i < n <= |caps| && InPages(caps[i], a)
    ensures Overlay(caps, n, a, under) == match CapByte(caps[i], a) case Some(v) => v case None => under
  {
    hide CapByte;
    if i == n - 1 {
      OverlayOutside(caps, n - 1, a, under);
    } else {
      OverlayDisjoint(caps, n - 1, i, a, under);
      assert !InPages(caps[n - 1], a);
      OutsideNone(caps[n - 1], a);
    }
  }

  lemma {:induction false} OutsideNone(c: Capture, a: nat)
    requires Packed(c) && !InPages(c, a)
    ensures CapByte(c, a) == None
  {
  }
}
