/** Grouping the sorted ranges of a baseline into contiguous memory blocks. */
module RestoreGroups {
  import opened ImageFormat
  import opened RestoreRead

  const MAX_GROUPS: nat := 64

  datatype Group = Group(va: nat, size: nat)

  ghost predicate Sorted(ds: seq<Desc>) {
    forall i, j :: 0 <= i < j < |ds| ==> ds[i].baseVa <= ds[j].baseVa
  }

  /** The library sort returns some sorted arrangement of the descriptors. */
  ghost predicate SortedOf(ds: seq<Desc>, sorted: seq<Desc>) {
    Sorted(sorted) && multiset(sorted) == multiset(ds)
  }

  /** A range joins the last group when it overlaps or touches it. */
  function Join(gs: seq<Group>, d: Desc): seq<Group> {
    if gs == [] || d.baseVa > gs[|gs| - 1].va + gs[|gs| - 1].size then gs + [Group(d.baseVa, d.length)]
    else
      var last := gs[|gs| - 1];
      var end, dEnd := last.va + last.size, d.baseVa + d.length;
      gs[..|gs| - 1] + [Group(last.va, if dEnd > end then last.size + (dEnd - end) else last.size)]
  }

  function Groups(ds: seq<Desc>, n: nat): (gs: seq<Group>)
    requires n <= |ds|
    ensures |gs| <= n && (n > 0 ==> gs != [])
  {
    if n == 0 then [] else Join(Groups(ds, n - 1), ds[n - 1])
  }

  /** The group range `i` was put in. */
  function GroupOf(ds: seq<Desc>, i: nat): nat
    requires i < |ds|
  {
    |Groups(ds, i + 1)| - 1
  }

  lemma {:induction false} GroupsGrow(ds: seq<Desc>, m: nat, n: nat)
    requires m <= n <= |ds|
    ensures |Groups(ds, m)| <= |Groups(ds, n)|
  {
    if m < n {
      GroupsGrow(ds, m, n - 1);
    }
  }

  method GroupRanges(ds: seq<Desc>) returns (r: Result<(seq<Group>, seq<nat>)>)
    ensures r.Ok? <==> |Groups(ds, |ds|)| <= MAX_GROUPS
    ensures r.Err? ==> r.error == TooManyGroups
    ensures r.Ok? ==> r.value.0 == Groups(ds, |ds|) && |r.value.1| == |ds|
    ensures r.Ok? ==> forall i :: 0 <= i < |ds| ==> r.value.1[i] == GroupOf(ds, i)
  {
    var groups: seq<Group>, at: seq<nat> := [], [];
    for i := 0 to |ds|
      invariant groups == Groups(ds, i) && |groups| <= MAX_GROUPS
      invariant |at| == i && forall j :: 0 <= j < i ==> at[j] == GroupOf(ds, j)
    {
      var d := ds[i];
      if |groups| == 0 || d.baseVa > groups[|groups| - 1].va + groups[|groups| - 1].size {
        if |groups| >= MAX_GROUPS {
          GroupsGrow(ds, i + 1, |ds|);
          return Err(TooManyGroups);
        }
        groups := groups + [Group(d.baseVa, d.length)];
      } else {
        groups := Widen(groups, d);
      }
      at := at + [|groups| - 1];
      hide Join, Groups;
    }
    r := Ok((groups, at));
  }

  method Widen(groups: seq<Group>, d: Desc) returns (widened: seq<Group>)
    requires groups != [] && d.baseVa <= groups[|groups| - 1].va + groups[|groups| - 1].size
    ensures widened == Join(groups, d)
  {
    var last := groups[|groups| - 1];
    var end := last.va + last.size;
    if d.baseVa + d.length > end {
      last := Group(last.va, last.size + (d.baseVa + d.length - end));
    }
    widened := groups[..|groups| - 1] + [last];
  }

  predicate InGroup(g: Group, a: int) { g.va <= a < g.va + g.size }

  predicate InRange(d: Desc, a: int) { d.baseVa <= a < d.baseVa + d.length }

  predicate Holds(g: Group, d: Desc) {
    g.va <= d.baseVa && d.baseVa + d.length <= g.va + g.size
  }

  /** Groups are in order and do not even touch. */
  ghost predicate Apart(gs: seq<Group>) {
    forall i, j :: 0 <= i < j < |gs| ==> gs[i].va + gs[i].size < gs[j].va
  }

  lemma {:induction false} LastStart(ds: seq<Desc>, n: nat)
    requires Sorted(ds) && 0 < n <= |ds|
    ensures Groups(ds, n)[|Groups(ds, n)| - 1].va <= ds[n - 1].baseVa
  {
    if n > 1 {
      LastStart(ds, n - 1);
    }
  }

  lemma {:induction false} JoinApart(gs: seq<Group>, d: Desc)
    requires Apart(gs) && (gs != [] ==> gs[|gs| - 1].va <= d.baseVa)
    ensures Apart(Join(gs, d))
  {
  }

  /** The groups are disjoint and non-touching. */
  lemma {:induction false} GroupsApart(ds: seq<Desc>, n: nat)
    requires Sorted(ds) && n <= |ds|
    ensures Apart(Groups(ds, n))
  {
    if n > 0 {
      GroupsApart(ds, n - 1);
      if n > 1 {
        LastStart(ds, n - 1);
      }
      JoinApart(Groups(ds, n - 1), ds[n - 1]);
    }
    hide Join, Apart, Sorted;
  }

  /** Joining shrinks no group, and the last one holds the range joined. */
  lemma {:induction false} JoinHolds(gs: seq<Group>, d: Desc)
    requires gs != [] ==> gs[|gs| - 1].va <= d.baseVa
    ensures |gs| <= |Join(gs, d)| && Join(gs, d) != [] && Holds(Join(gs, d)[|Join(gs, d)| - 1], d)
    ensures forall g :: 0 <= g < |gs| ==> Join(gs, d)[g].va == gs[g].va && gs[g].size <= Join(gs, d)[g].size
  {
  }

  /** Every range lies in the group it was put in. */
  lemma {:induction false} GroupHolds(ds: seq<Desc>, n: nat, i: nat)
    requires Sorted(ds) && i < n <= |ds|
    ensures GroupOf(ds, i) < |Groups(ds, n)| && Holds(Groups(ds, n)[GroupOf(ds, i)], ds[i])
  {
    hide Join;
    if n > 1 {
      LastStart(ds, n - 1);
      assert ds[n - 2].baseVa <= ds[n - 1].baseVa;
    }
    var gs, js := Groups(ds, n - 1), Groups(ds, n);
    assert js == Join(gs, ds[n - 1]);
    JoinHolds(gs, ds[n - 1]);
    if i < n - 1 {
      GroupHolds(ds, n - 1, i);
      var g := GroupOf(ds, i);
      assert js[g].va == gs[g].va && gs[g].size <= js[g].size;
    }
    hide Groups;
  }

  /** Together the groups hold exactly the bytes of the ranges. */
  lemma {:induction false} GroupsCover(ds: seq<Desc>, n: nat, a: int)
    requires Sorted(ds) && n <= |ds|
    ensures SomeGroup(Groups(ds, n), a) <==> SomeRange(ds, n, a)
  {
    if n > 0 {
      GroupsCover(ds, n - 1, a);
      if n > 1 {
        LastStart(ds, n - 1);
      }
      JoinCovers(Groups(ds, n - 1), ds[n - 1], a);
      assert SomeRange(ds, n, a) <==> SomeRange(ds, n - 1, a) || InRange(ds[n - 1], a) by {
        hide InRange;
      }
    }
    hide Join, Sorted, InRange, InGroup;
  }

  ghost predicate SomeGroup(gs: seq<Group>, a: int) {
    exists g :: 0 <= g < |gs| && InGroup(gs[g], a)
  }

  ghost predicate SomeRange(ds: seq<Desc>, n: nat, a: int)
    requires n <= |ds|
  {
    exists i :: 0 <= i < n && InRange(ds[i], a)
  }

  lemma {:induction false} JoinCovers(gs: seq<Group>, d: Desc, a: int)
    requires gs != [] ==> gs[|gs| - 1].va <= d.baseVa
    ensures SomeGroup(Join(gs, d), a) <==> SomeGroup(gs, a) || InRange(d, a)
  {
    var js := Join(gs, d);
    if g :| 0 <= g < |gs| && InGroup(gs[g], a) {
      assert InGroup(js[g], a);
    }
    if InRange(d, a) {
      assert InGroup(js[|js| - 1], a);
    }
    if g :| 0 <= g < |js| && InGroup(js[g], a) {
      if g < |gs| && js[g] == gs[g] {
        assert InGroup(gs[g], a);
      } else if !InRange(d, a) {
        assert InGroup(gs[|gs| - 1], a);
      }
    }
  }
}
