/** The two shared structures of the streaming writers: a free stack of capture
    slots and a bounded circular work queue. Every method body runs under the
    structure's lock; a `requires` is what the caller waited for. */
module StreamQueue {
  import opened Arith

  datatype Option<T> = None | Some(value: T)

  /** Slots not in use; the last one freed is taken first. */
  class CapturePool {
    const freeStack: array<nat>
    var nFree: nat

    ghost predicate Valid()
      reads this
    {
      nFree <= freeStack.Length
    }

    ghost function Free(): seq<nat>
      requires Valid()
      reads this, freeStack
    {
      freeStack[..nFree]
    }

    constructor (nSlots: nat)
      ensures Valid() && fresh(freeStack) && freeStack.Length == nSlots
      ensures Free() == seq(nSlots, (i: nat) => i)
    {
      freeStack := new nat[nSlots]((i: nat) => i);
      nFree := nSlots;
      new;
      assert freeStack[..nFree] == seq(nSlots, (i: nat) => i);
    }

    method Acquire() returns (idx: nat)
      requires Valid() && nFree > 0
      modifies this`nFree
      ensures Valid() && old(Free()) == Free() + [idx]
    {
      nFree := nFree - 1;
      idx := freeStack[nFree];
    }

    method Release(idx: nat)
      requires Valid() && nFree < freeStack.Length
      modifies this`nFree, freeStack
      ensures Valid() && Free() == old(Free()) + [idx]
    {
      freeStack[nFree] := idx;
      nFree := nFree + 1;
    }
  }

  /** `count` items from `head` on, wrapping around. */
  class WorkQueue<T(0)> {
    const slots: array<T>
    var head: nat
    var tail: nat
    var count: nat
    var closed: bool

    ghost predicate Valid()
      reads this
    {
      && slots.Length > 0 && head < slots.Length && count <= slots.Length
      && tail == (head + count) % slots.Length
    }

    ghost function Contents(): (s: seq<T>)
      requires Valid()
      reads this, slots
      ensures |s| == count
    {
      seq(count, i requires 0 <= i < count reads this, slots requires Valid() => slots[(head + i) % slots.Length])
    }

    constructor (capacity: nat)
      requires capacity > 0
      ensures Valid() && fresh(slots) && slots.Length == capacity && Contents() == [] && !closed
    {
      slots := new T[capacity];
      head, tail, count, closed := 0, 0, 0, false;
    }

    method Push(item: T)
      requires Valid() && count < slots.Length
      modifies this`tail, this`count, slots
      ensures Valid() && Contents() == old(Contents()) + [item]
    {
      ghost var was := Contents();
      slots[tail] := item;
      forall i | 0 <= i < count ensures slots[(head + i) % slots.Length] == was[i] {
        SlotsApart(head, i, count, slots.Length);
      }
      NextIndex(head, count, slots.Length);
      assert slots[(head + count) % slots.Length] == item;
      tail := (tail + 1) % slots.Length;
      count := count + 1;
      forall i | 0 <= i < count ensures Contents()[i] == (was + [item])[i] {
      }
    }

    /** Take the oldest item; None when the queue is closed and drained. */
    method Pop() returns (r: Option<T>)
      requires Valid() && (count > 0 || closed)
      modifies this`head, this`count
      ensures Valid()
      ensures r.None? <==> old(Contents()) == []
      ensures r.Some? ==> old(Contents()) == [r.value] + Contents()
      ensures r.None? ==> Contents() == []
    {
      if count == 0 && closed { return None; }
      ghost var was := Contents();
      NextIndex(head, 0, slots.Length);
      assert was[0] == slots[head % slots.Length];
      r := Some(slots[head]);
      ghost var h := head;
      head := (head + 1) % slots.Length;
      count := count - 1;
      Rotate(h, count, slots.Length);
      forall i | 0 <= i < count ensures Contents()[i] == was[i + 1] {
        Rotate(h, i, slots.Length);
      }
      assert was == [was[0]] + was[1..];
    }

    method Close()
      requires Valid()
      modifies this`closed
      ensures Valid() && closed && Contents() == old(Contents())
    {
      closed := true;
    }
  }

  /** Index arithmetic of the circular buffer of `n` cells. */
  lemma {:induction false} Wrap(x: nat, n: nat)
    requires n > 0 && x < 2 * n
    ensures x % n == if x < n then x else x - n
  {
    if x < n {
      DivUnique(x, 0, x, n);
    } else {
      DivUnique(x, 1, x - n, n);
    }
  }

  lemma {:induction false} SlotsApart(head: nat, i: nat, count: nat, n: nat)
    requires head < n && i < count < n
    ensures (head + i) % n != (head + count) % n
  {
    Wrap(head + i, n);
    Wrap(head + count, n);
  }

  lemma {:induction false} NextIndex(head: nat, count: nat, n: nat)
    requires head < n && count < n
    ensures ((head + count) % n + 1) % n == (head + (count + 1)) % n
    ensures head % n == head
  {
    Wrap(head + count, n);
    Wrap(head + count + 1, n);
    Wrap((head + count) % n + 1, n);
    Wrap(head, n);
  }

  lemma {:induction false} Rotate(head: nat, i: nat, n: nat)
    requires head < n && i < n
    ensures ((head + 1) % n + i) % n == (head + (i + 1)) % n
  {
    Wrap(head + 1, n);
    Wrap(head + (i + 1), n);
    Wrap((head + 1) % n + i, n);
  }
}
