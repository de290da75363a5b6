/** The restore ring: worker threads claim jobs in order, decrypt each into its ring
    slot, and one consumer copies the slots out in job order. */
module RestoreRing {
  import opened Arith

  datatype SlotState = Free | Assigned | Ready

  /** `nextSeq` is the only job the slot may serve now. */
  datatype Slot = Slot(state: SlotState, nextSeq: nat, buf: seq<int>)

  datatype Worker = Idle | Claimed(job: nat) | Decrypting(job: nat) | Exited

  datatype Consumer = Waiting | Copying(got: seq<int>)

  datatype Ring = Ring(slots: seq<Slot>, dispatch: nat, workers: seq<Worker>, next: nat, consumer: Consumer, out: seq<seq<int>>)

  /** The plaintext of every job, how much of it is copied out, and the jobs whose
      decryption call fails. */
  datatype Plan = Plan(plain: seq<seq<int>>, limits: seq<nat>, failed: set<nat>) {
    predicate Valid() {
      |limits| == |plain| && forall j :: 0 <= j < |plain| ==> limits[j] <= |plain[j]|
    }
  }

  datatype Step =
    | Claim(w: nat)                         // fetch-and-add on the dispatch counter
    | Assign(w: nat)                        // the claimed job's slot is free for it
    | Scribble(w: nat, content: seq<int>)   // the decryption writes part of the buffer
    | Publish(w: nat, content: seq<int>)    // the decryption returns; mark ready
    | Start                                 // consumer: its job's slot is ready
    | CopyByte
    | Release

  function Init(ring: nat, workers: nat): Ring {
    Ring(seq(ring, (i: nat) => Slot(Free, i, [])), 0, seq(workers, _ => Idle), 0, Waiting, [])
  }

  ghost predicate Enabled(p: Plan, r: Ring, s: Step)
    requires p.Valid()
  {
    |r.slots| > 0 && match s
    case Claim(w) => w < |r.workers| && r.workers[w].Idle?
    case Assign(w) =>
      w < |r.workers| && r.workers[w].Claimed? && var j := r.workers[w].job;
      r.slots[j % |r.slots|].state.Free? && r.slots[j % |r.slots|].nextSeq == j
    case Scribble(w, content) => w < |r.workers| && r.workers[w].Decrypting? && r.workers[w].job < |p.plain|
    case Publish(w, content) =>
      w < |r.workers| && r.workers[w].Decrypting? && r.workers[w].job < |p.plain| && var j := r.workers[w].job;
      |content| == |p.plain[j]| && (j !in p.failed ==> content == p.plain[j])
    case Start => r.consumer.Waiting? && r.next < |p.plain| && r.slots[r.next % |r.slots|].state.Ready?
                  && r.slots[r.next % |r.slots|].nextSeq == r.next
    case CopyByte => r.consumer.Copying? && r.next < |p.plain| && |r.consumer.got| < p.limits[r.next]
                     && |r.consumer.got| < |r.slots[r.next % |r.slots|].buf|
    case Release => r.consumer.Copying? && r.next < |p.plain| && |r.consumer.got| == p.limits[r.next]
  }

  function Apply(p: Plan, r: Ring, s: Step): Ring
    requires p.Valid() && Enabled(p, r, s)
  {
    match s
    case Claim(w) =>
      r.(dispatch := r.dispatch + 1,
         workers := r.workers[w := if r.dispatch < |p.plain| then Claimed(r.dispatch) else Exited])
    case Assign(w) =>
      var j := r.workers[w].job; var i := j % |r.slots|;
      r.(slots := r.slots[i := r.slots[i].(state := Assigned)], workers := r.workers[w := Decrypting(j)])
    case Scribble(w, content) =>
      var i := r.workers[w].job % |r.slots|;
      r.(slots := r.slots[i := r.slots[i].(buf := content)])
    case Publish(w, content) =>
      var i := r.workers[w].job % |r.slots|;
      r.(slots := r.slots[i := r.slots[i].(state := Ready, buf := content)], workers := r.workers[w := Idle])
    case Start => r.(consumer := Copying([]))
    case CopyByte =>
      var got := r.consumer.got;
      r.(consumer := Copying(got + [r.slots[r.next % |r.slots|].buf[|got|]]))
    case Release =>
      var i := r.next % |r.slots|;
      r.(slots := r.slots[i := r.slots[i].(state := Free, nextSeq := r.next + |r.slots|)],
         next := r.next + 1, consumer := Waiting, out := r.out + [r.consumer.got])
  }

  // -------------------------------------------------------------- invariant

  function Least(a: nat, b: nat): nat { if a <= b then a else b }

  /** Worker `w` is responsible for job `j`. */
  predicate Holds(w: Worker, j: nat) {
    (w.Claimed? || w.Decrypting?) && w.job == j
  }

  ghost predicate Held(ws: seq<Worker>, j: nat) {
    exists w :: 0 <= w < |ws| && Holds(ws[w], j)
  }

  /** Slot `i` serves, in increasing order, the jobs congruent to `i`; now the least
      one not consumed. */
  ghost predicate Turns(r: Ring) {
    forall i :: 0 <= i < |r.slots| ==>
      r.next <= r.slots[i].nextSeq < r.next + |r.slots| && r.slots[i].nextSeq % |r.slots| == i
  }

  /** Each claimed job has one worker, and is not consumed yet. */
  ghost predicate Claims(p: Plan, r: Ring) {
    && (forall w, j: nat :: 0 <= w < |r.workers| && Holds(r.workers[w], j) ==> r.next <= j < Least(r.dispatch, |p.plain|))
    && (forall v, w, j: nat :: 0 <= v < |r.workers| && 0 <= w < |r.workers| && Holds(r.workers[v], j) && Holds(r.workers[w], j) ==> v == w)
    && (forall w :: 0 <= w < |r.workers| && r.workers[w].Exited? ==> |p.plain| <= r.dispatch)
  }

  /** A decrypting worker has its slot assigned, an assigned slot its worker. */
  ghost predicate Assignments(r: Ring) {
    && |r.slots| > 0
    && (forall w :: 0 <= w < |r.workers| && r.workers[w].Decrypting? ==>
          r.slots[r.workers[w].job % |r.slots|].state.Assigned? && r.slots[r.workers[w].job % |r.slots|].nextSeq == r.workers[w].job)
    && (forall i :: 0 <= i < |r.slots| && r.slots[i].state.Assigned? ==>
          exists w :: 0 <= w < |r.workers| && r.workers[w] == Decrypting(r.slots[i].nextSeq))
  }

  /** A ready slot holds the decryption of its job, which no worker holds any more. */
  ghost predicate ReadySlot(p: Plan, r: Ring, i: nat)
    requires i < |r.slots|
  {
    var j := r.slots[i].nextSeq;
    j < Least(r.dispatch, |p.plain|) && !Held(r.workers, j) && |r.slots[i].buf| == |p.plain[j]|
    && (j !in p.failed ==> r.slots[i].buf == p.plain[j])
  }

  /** Every dispatched job is with a worker or ready, until it is consumed. */
  ghost predicate NoneLost(p: Plan, r: Ring)
    requires |r.slots| > 0
  {
    forall j :: r.next <= j < Least(r.dispatch, |p.plain|) ==> Held(r.workers, j) || IsReady(r, j)
  }

  ghost predicate IsReady(r: Ring, j: nat)
    requires |r.slots| > 0
  {
    j < r.next + |r.slots| && r.slots[j % |r.slots|].state.Ready?
  }

  ghost predicate Consuming(p: Plan, r: Ring)
    requires p.Valid()
  {
    && |r.out| == r.next <= Least(r.dispatch, |p.plain|) && |r.slots| > 0
    && (forall j :: 0 <= j < r.next ==>
          |r.out[j]| == p.limits[j] && (j !in p.failed ==> r.out[j] == p.plain[j][..p.limits[j]]))
    && (r.consumer.Copying? ==>
          var i := r.next % |r.slots|;
          && r.next < |p.plain| && r.slots[i].state.Ready? && r.slots[i].nextSeq == r.next
          && |r.consumer.got| <= p.limits[r.next] && |r.consumer.got| <= |r.slots[i].buf|
          && r.consumer.got == r.slots[i].buf[..|r.consumer.got|])
  }

  ghost predicate Inv(p: Plan, r: Ring) {
    && p.Valid() && |r.slots| > 0
    && Turns(r) && Claims(p, r) && Assignments(r)
    && (forall i :: 0 <= i < |r.slots| && r.slots[i].state.Ready? ==> ReadySlot(p, r, i))
    && NoneLost(p, r) && Consuming(p, r)
  }

  lemma {:induction false} ModInWindow(c: nat, n: nat, j: nat, k: nat)
    requires n > 0 && c <= j < c + n && c <= k < c + n && j % n == k % n
    ensures j == k
  {
    var a, b := j / n, k / n;
    assert j == n * a + j % n && k == n * b + k % n;
    assert n * (a + 1) == n * a + n && n * (b + 1) == n * b + n;
    if a < b {
      MulMono(n, a + 1, b);
    } else if b < a {
      MulMono(n, b + 1, a);
    }
  }

  lemma {:induction false} ModPeriod(j: nat, n: nat)
    requires n > 0
    ensures (j + n) % n == j % n
  {
    assert j == n * (j / n) + j % n && n * (j / n + 1) == n * (j / n) + n;
    DivUnique(j + n, j / n + 1, j % n, n);
  }

  /** The slot whose turn is job `j` is the one `j` maps to. */
  lemma {:induction false} TurnSlot(r: Ring, i: nat, j: nat)
    requires Turns(r) && i < |r.slots| && r.next <= j < r.next + |r.slots| && i == j % |r.slots|
    ensures r.slots[i].nextSeq == j
  {
    ModInWindow(r.next, |r.slots|, r.slots[i].nextSeq, j);
  }

  lemma {:induction false} InitInv(p: Plan, ring: nat, workers: nat)
    requires p.Valid() && ring > 0
    ensures Inv(p, Init(ring, workers))
  {
    var r := Init(ring, workers);
    assert Turns(r) && Claims(p, r) && Assignments(r) && Consuming(p, r);
    hide Turns, Claims, Assignments, Consuming;
  }

  /** Replacing worker `w` changes only what `w` holds. */
  lemma {:induction false} HeldAfter(p: Plan, r: Ring, w: nat, x: Worker, j: nat)
    requires Claims(p, r) && w < |r.workers|
    ensures Held(r.workers[w := x], j) <==> Holds(x, j) || (Held(r.workers, j) && !Holds(r.workers[w], j))
  {
    var ws := r.workers[w := x];
    if Held(r.workers, j) && !Holds(r.workers[w], j) {
      var v :| 0 <= v < |r.workers| && Holds(r.workers[v], j);
      assert Holds(ws[v], j);
    }
    if Holds(x, j) {
      assert Holds(ws[w], j);
    }
    if Held(ws, j) {
      var v :| 0 <= v < |ws| && Holds(ws[v], j);
      if v != w {
        assert Holds(r.workers[v], j);
      }
    }
  }

  /** A worker step that leaves the slots alone keeps ready slots ready and every
      job accounted for, when no job is taken over and none is dropped. */
  lemma {:induction false} WorkersChange(p: Plan, r: Ring, r': Ring)
    requires Inv(p, r) && |r'.slots| == |r.slots| && r'.next == r.next && r.dispatch <= r'.dispatch
    requires forall i :: 0 <= i < |r.slots| && (r.slots[i].state.Ready? || r'.slots[i].state.Ready?) ==> r'.slots[i] == r.slots[i]
    requires forall j: nat :: j < Least(r.dispatch, |p.plain|) ==> (Held(r'.workers, j) <==> Held(r.workers, j))
    requires forall j: nat :: Least(r.dispatch, |p.plain|) <= j < Least(r'.dispatch, |p.plain|) ==> Held(r'.workers, j)
    ensures forall i :: 0 <= i < |r'.slots| && r'.slots[i].state.Ready? ==> ReadySlot(p, r', i)
    ensures NoneLost(p, r')
  {
    hide Turns, Claims, Assignments, Consuming, Held;
    forall i | 0 <= i < |r'.slots| && r'.slots[i].state.Ready? ensures ReadySlot(p, r', i) {
      assert ReadySlot(p, r, i);
    }
    forall j | r'.next <= j < Least(r'.dispatch, |p.plain|) ensures Held(r'.workers, j) || IsReady(r', j) {
      if j < Least(r.dispatch, |p.plain|) {
        assert IsReady(r, j) ==> IsReady(r', j);
      }
    }
  }

  lemma {:induction false} ClaimKeepsInv(p: Plan, r: Ring, s: Step)
    requires Inv(p, r) && Enabled(p, r, s) && s.Claim?
    ensures Inv(p, Apply(p, r, s))
  {
    var r' := Apply(p, r, s);
    ClaimClaims(p, r, s);
    forall j: nat ensures Held(r'.workers, j) <==> Holds(r'.workers[s.w], j) || Held(r.workers, j) {
      HeldAfter(p, r, s.w, r'.workers[s.w], j);
    }
    WorkersChange(p, r, r');
    assert Turns(r') && Consuming(p, r');
    hide Turns, Consuming, ReadySlot, NoneLost, Held;
    forall i | 0 <= i < |r'.slots| && r'.slots[i].state.Assigned?
      ensures exists w :: 0 <= w < |r'.workers| && r'.workers[w] == Decrypting(r'.slots[i].nextSeq)
    {
      var w :| 0 <= w < |r.workers| && r.workers[w] == Decrypting(r.slots[i].nextSeq);
      assert r'.workers[w] == r.workers[w];
    }
  }

  lemma {:induction false} ClaimClaims(p: Plan, r: Ring, s: Step)
    requires Inv(p, r) && Enabled(p, r, s) && s.Claim?
    ensures Claims(p, Apply(p, r, s))
  {
    hide Turns, Assignments, ReadySlot, NoneLost;
    var r' := Apply(p, r, s);
  }

  lemma {:induction false} AssignClaims(p: Plan, r: Ring, s: Step)
    requires Inv(p, r) && Enabled(p, r, s) && s.Assign?
    ensures Claims(p, Apply(p, r, s))
  {
    hide Turns, Assignments, ReadySlot, NoneLost, Consuming;
    var r' := Apply(p, r, s);
    assert forall w, j: nat :: 0 <= w < |r.workers| ==> (Holds(r'.workers[w], j) <==> Holds(r.workers[w], j));
  }

  lemma {:induction false} AssignKeepsInv(p: Plan, r: Ring, s: Step)
    requires Inv(p, r) && Enabled(p, r, s) && s.Assign?
    ensures Inv(p, Apply(p, r, s))
  {
    var r' := Apply(p, r, s);
    var j := r.workers[s.w].job;
    var at := j % |r.slots|;
    forall k: nat ensures Held(r'.workers, k) <==> Held(r.workers, k) {
      HeldAfter(p, r, s.w, Decrypting(j), k);
      if k == j {
        assert Holds(r.workers[s.w], k);
      }
    }
    AssignClaims(p, r, s);
    WorkersChange(p, r, r');
    assert Turns(r') && Consuming(p, r');
    hide Turns, Consuming, Claims, ReadySlot, NoneLost, Held;
    forall i | 0 <= i < |r'.slots| && r'.slots[i].state.Assigned?
      ensures exists w :: 0 <= w < |r'.workers| && r'.workers[w] == Decrypting(r'.slots[i].nextSeq)
    {
      if i == at {
        assert r'.workers[s.w] == Decrypting(j);
      } else {
        var w :| 0 <= w < |r.workers| && r.workers[w] == Decrypting(r.slots[i].nextSeq);
        assert r'.workers[w] == r.workers[w];
      }
    }
  }

  lemma {:induction false} ScribbleKeepsInv(p: Plan, r: Ring, s: Step)
    requires Inv(p, r) && Enabled(p, r, s) && s.Scribble?
    ensures Inv(p, Apply(p, r, s))
  {
    var r' := Apply(p, r, s);
    var at := r.workers[s.w].job % |r.slots|;
    assert r.slots[at].state.Assigned?;
    assert Turns(r') && Claims(p, r') && Assignments(r') && Consuming(p, r');
    hide Turns, Claims, Assignments, Consuming, Held;
    forall i | 0 <= i < |r'.slots| && r'.slots[i].state.Ready? ensures ReadySlot(p, r', i) {
      assert ReadySlot(p, r, i);
    }
    forall k | r'.next <= k < Least(r'.dispatch, |p.plain|) ensures Held(r'.workers, k) || IsReady(r', k) {
      assert IsReady(r, k) ==> IsReady(r', k);
    }
  }

  lemma {:induction false} PublishKeepsInv(p: Plan, r: Ring, s: Step)
    requires Inv(p, r) && Enabled(p, r, s) && s.Publish?
    ensures Inv(p, Apply(p, r, s))
  {
    var r' := Apply(p, r, s);
    var j := r.workers[s.w].job;
    var at := j % |r.slots|;
    assert Holds(r.workers[s.w], j) && r.slots[at].nextSeq == j && r.slots[at].state.Assigned?;
    forall k: nat ensures Held(r'.workers, k) <==> Held(r.workers, k) && k != j {
      HeldAfter(p, r, s.w, Idle, k);
    }
    assert Turns(r') && Claims(p, r') && Consuming(p, r');
    PublishAssignments(p, r, s);
    hide Claims, Assignments, Consuming, Held;
    forall i | 0 <= i < |r'.slots| && r'.slots[i].state.Ready? ensures ReadySlot(p, r', i) {
      if i != at {
        assert ReadySlot(p, r, i);
      }
    }
    forall k | r'.next <= k < Least(r'.dispatch, |p.plain|) ensures Held(r'.workers, k) || IsReady(r', k) {
      assert IsReady(r, k) ==> IsReady(r', k);
    }
    hide Turns;
  }

  lemma {:induction false} PublishAssignments(p: Plan, r: Ring, s: Step)
    requires Inv(p, r) && Enabled(p, r, s) && s.Publish?
    ensures Assignments(Apply(p, r, s))
  {
    var r' := Apply(p, r, s);
    var j := r.workers[s.w].job;
    var at := j % |r.slots|;
    hide Consuming, NoneLost, ReadySlot, Held;
    forall w | 0 <= w < |r'.workers| && r'.workers[w].Decrypting?
      ensures r'.slots[r'.workers[w].job % |r.slots|].state.Assigned?
              && r'.slots[r'.workers[w].job % |r.slots|].nextSeq == r'.workers[w].job
    {
      assert r.workers[w] == r'.workers[w] && w != s.w;
      assert Holds(r.workers[w], r.workers[w].job) && Holds(r.workers[s.w], j);
      assert r.slots[r.workers[w].job % |r.slots|].nextSeq == r.workers[w].job;
    }
    forall i | 0 <= i < |r'.slots| && r'.slots[i].state.Assigned?
      ensures exists w :: 0 <= w < |r'.workers| && r'.workers[w] == Decrypting(r'.slots[i].nextSeq)
    {
      assert r'.slots[i] == r.slots[i] && i != at;
      var w :| 0 <= w < |r.workers| && r.workers[w] == Decrypting(r.slots[i].nextSeq);
      assert r.slots[i].nextSeq % |r.slots| == i;
      assert r'.workers[w] == r.workers[w];
    }
  }

  lemma {:induction false} ConsumeKeepsInv(p: Plan, r: Ring, s: Step)
    requires Inv(p, r) && Enabled(p, r, s) && (s.Start? || s.CopyByte?)
    ensures Inv(p, Apply(p, r, s))
  {
    var r' := Apply(p, r, s);
    assert Turns(r') && Claims(p, r') && Assignments(r');
    assert Consuming(p, r');
    hide Turns, Claims, Assignments, Consuming, Held;
    forall i | 0 <= i < |r'.slots| && r'.slots[i].state.Ready? ensures ReadySlot(p, r', i) {
      assert ReadySlot(p, r, i);
    }
    forall k | r'.next <= k < Least(r'.dispatch, |p.plain|) ensures Held(r'.workers, k) || IsReady(r', k) {
      assert IsReady(r, k) ==> IsReady(r', k);
    }
  }

  lemma {:induction false} ReleaseTurns(p: Plan, r: Ring)
    requires Inv(p, r) && Enabled(p, r, Release)
    ensures Turns(Apply(p, r, Release))
  {
    hide Claims, Assignments, NoneLost, ReadySlot;
    var r' := Apply(p, r, Release);
    ModPeriod(r.next, |r.slots|);
    forall i | 0 <= i < |r'.slots|
      ensures r'.next <= r'.slots[i].nextSeq < r'.next + |r'.slots| && r'.slots[i].nextSeq % |r'.slots| == i
    {
      if i != r.next % |r.slots| {
        assert r.slots[i].nextSeq != r.next;
      }
    }
  }

  lemma {:induction false} ReleaseConsuming(p: Plan, r: Ring)
    requires Inv(p, r) && Enabled(p, r, Release)
    ensures Consuming(p, Apply(p, r, Release))
  {
    var r' := Apply(p, r, Release);
    var i := r.next % |r.slots|;
    assert ReadySlot(p, r, i);
    hide Turns, Claims, Assignments, NoneLost, Held;
    forall j | 0 <= j < r'.next
      ensures |r'.out[j]| == p.limits[j] && (j !in p.failed ==> r'.out[j] == p.plain[j][..p.limits[j]])
    {
      if j < r.next {
        assert r'.out[j] == r.out[j];
      }
    }
  }

  lemma {:induction false} ReleaseKeepsInv(p: Plan, r: Ring)
    requires Inv(p, r) && Enabled(p, r, Release)
    ensures Inv(p, Apply(p, r, Release))
  {
    var r' := Apply(p, r, Release);
    var at := r.next % |r.slots|;
    ReleaseTurns(p, r);
    ReleaseConsuming(p, r);
    assert ReadySlot(p, r, at);
    assert !Held(r.workers, r.next);
    ReleaseClaims(p, r);
    hide Consuming, Claims;
    assert forall k: nat :: Held(r'.workers, k) <==> Held(r.workers, k);
    assert Assignments(r');
    hide Assignments, Held, Turns;
    forall i | 0 <= i < |r'.slots| && r'.slots[i].state.Ready? ensures ReadySlot(p, r', i) {
      assert ReadySlot(p, r, i);
    }
    forall k | r'.next <= k < Least(r'.dispatch, |p.plain|) ensures Held(r'.workers, k) || IsReady(r', k) {
      if IsReady(r, k) && k % |r.slots| == at {
        ModInWindow(r.next, |r.slots|, r.next, k);
      }
    }
  }

  lemma {:induction false} ReleaseClaims(p: Plan, r: Ring)
    requires Inv(p, r) && Enabled(p, r, Release) && !Held(r.workers, r.next)
    ensures Claims(p, Apply(p, r, Release))
  {
    hide Turns, Assignments, ReadySlot, NoneLost;
    var r' := Apply(p, r, Release);
    forall w, j: nat | 0 <= w < |r.workers| && Holds(r.workers[w], j) ensures r'.next <= j < Least(r'.dispatch, |p.plain|) {
      assert Held(r.workers, j);
    }
  }

  /** Every step of any worker or of the consumer keeps the ring's invariant. */
  lemma {:induction false} StepKeepsInv(p: Plan, r: Ring, s: Step)
    requires Inv(p, r) && Enabled(p, r, s)
    ensures Inv(p, Apply(p, r, s))
  {
    hide Inv, Enabled, Apply;
    match s
    case Claim(_) => ClaimKeepsInv(p, r, s);
    case Assign(_) => AssignKeepsInv(p, r, s);
    case Scribble(_, _) => ScribbleKeepsInv(p, r, s);
    case Publish(_, _) => PublishKeepsInv(p, r, s);
    case Release => ReleaseKeepsInv(p, r);
    case _ => ConsumeKeepsInv(p, r, s);
  }

  ghost predicate Next(p: Plan, r: Ring, r': Ring) {
    p.Valid() && exists s :: Enabled(p, r, s) && r' == Apply(p, r, s)
  }

  ghost predicate Run(p: Plan, ring: nat, workers: nat, trace: seq<Ring>) {
    && p.Valid() && ring > 0 && trace != [] && trace[0] == Init(ring, workers)
    && forall n :: 0 < n < |trace| ==> Next(p, trace[n - 1], trace[n])
  }

  lemma {:induction false} RunKeepsInv(p: Plan, ring: nat, workers: nat, trace: seq<Ring>, n: nat)
    requires Run(p, ring, workers, trace) && n < |trace|
    ensures Inv(p, trace[n]) && |trace[n].workers| == workers && |trace[n].slots| == ring
  {
    hide Inv;
    if n == 0 {
      InitInv(p, ring, workers);
    } else {
      RunKeepsInv(p, ring, workers, trace, n - 1);
      assert Next(p, trace[n - 1], trace[n]);
      var s :| Enabled(p, trace[n - 1], s) && trace[n] == Apply(p, trace[n - 1], s);
      StepKeepsInv(p, trace[n - 1], s);
    }
  }

  /** In every reachable state of every schedule, the bytes copied out for job `j` are
      the allowed part of that job's own plaintext, for every job whose decryption
      call succeeded. */
  lemma {:induction false} RingDelivers(p: Plan, ring: nat, workers: nat, trace: seq<Ring>, n: nat, j: nat)
    requires Run(p, ring, workers, trace) && n < |trace| && j < trace[n].next
    ensures |trace[n].out| == trace[n].next <= |p.plain| && |trace[n].out[j]| == p.limits[j]
    ensures j !in p.failed ==> trace[n].out[j] == p.plain[j][..p.limits[j]]
  {
    RunKeepsInv(p, ring, workers, trace, n);
  }

  /** While the consumer reads job `next`, no worker writes its buffer: the slot stays
      ready, and what has been read is a prefix of the job's plaintext. */
  lemma {:induction false} ReadsUndisturbed(p: Plan, r: Ring, w: nat)
    requires Inv(p, r) && r.consumer.Copying? && w < |r.workers| && r.workers[w].Decrypting?
    ensures r.workers[w].job % |r.slots| != r.next % |r.slots|
    ensures r.next !in p.failed ==> r.consumer.got <= p.plain[r.next]
  {
    assert ReadySlot(p, r, r.next % |r.slots|);
  }

  // --------------------------------------------------------------- progress

  function Rank(w: Worker): nat {
    match w case Claimed(_) => 3 case Decrypting(_) => 2 case Idle => 1 case Exited => 0
  }

  function Ranks(ws: seq<Worker>): nat {
    if ws == [] then 0 else Ranks(ws[..|ws| - 1]) + Rank(ws[|ws| - 1])
  }

  lemma {:induction false} RanksUpdate(ws: seq<Worker>, w: nat, x: Worker)
    requires w < |ws|
    ensures Ranks(ws[w := x]) + Rank(ws[w]) == Ranks(ws) + Rank(x)
    decreases |ws|
  {
    var last := |ws| - 1;
    if w == last {
      assert ws[w := x][..last] == ws[..last];
    } else {
      RanksUpdate(ws[..last], w, x);
      assert ws[w := x][..last] == ws[..last][w := x];
    }
  }

  /** Bytes and hand-backs the consumer still has to do. */
  function Unread(limits: seq<nat>, next: nat): nat
    requires next <= |limits|
    decreases |limits| - next
  {
    if next == |limits| then 0 else limits[next] + 2 + Unread(limits, next + 1)
  }

  function Work(p: Plan, r: Ring): int
    requires p.Valid() && r.next <= |p.plain|
  {
    4 * (if r.dispatch < |p.plain| then |p.plain| - r.dispatch else 0) + Ranks(r.workers)
    + Unread(p.limits, r.next) - (if r.consumer.Copying? then 1 + |r.consumer.got| else 0)
  }

  /** Every step but a partial buffer write leaves less work. */
  lemma {:induction false} StepsShorten(p: Plan, r: Ring, s: Step)
    requires Inv(p, r) && Enabled(p, r, s) && !s.Scribble?
    ensures Apply(p, r, s).next <= |p.plain| && 0 <= Work(p, Apply(p, r, s)) < Work(p, r)
  {
    StepKeepsInv(p, r, s);
    var r' := Apply(p, r, s);
    if s.Claim? || s.Assign? || s.Publish? {
      RanksUpdate(r.workers, s.w, r'.workers[s.w]);
    }
    assert Consuming(p, r) && Consuming(p, r');
    hide Inv, Turns, Claims, Assignments, NoneLost;
    assert r'.next < |p.plain| ==> Unread(p.limits, r'.next) >= p.limits[r'.next] + 2;
  }

  /** With at least one worker no schedule deadlocks: until every job is consumed and
      every worker gone, some step other than a partial write is enabled. The least
      unconsumed job can always be claimed, decrypted or consumed. */
  lemma {:induction false} Progress(p: Plan, r: Ring) returns (s: Step)
    requires Inv(p, r) && |r.workers| > 0
    requires r.next < |p.plain| || exists w :: 0 <= w < |r.workers| && !r.workers[w].Exited?
    ensures Enabled(p, r, s) && !s.Scribble?
  {
    if r.consumer.Copying? {
      assert ReadySlot(p, r, r.next % |r.slots|);
      s := if |r.consumer.got| < p.limits[r.next] then CopyByte else Release;
    } else if r.next < Least(r.dispatch, |p.plain|) {
      s := LeastJobMoves(p, r);
    } else {
      var w := 0;
      if r.next == |p.plain| {
        w :| 0 <= w < |r.workers| && !r.workers[w].Exited?;
      }
      NoneLeftIdle(p, r, w);
      s := Claim(w);
    }
  }

  lemma {:induction false} Responsible(w: Worker)
    ensures w.Idle? || w.Exited? || exists j: nat :: Holds(w, j)
  {
    assert w.Claimed? || w.Decrypting? ==> Holds(w, w.job);
  }

  /** When no dispatched job is unconsumed, a worker still there is idle. */
  lemma {:induction false} NoneLeftIdle(p: Plan, r: Ring, w: nat)
    requires Inv(p, r) && r.next >= Least(r.dispatch, |p.plain|) && w < |r.workers|
    ensures r.next < |p.plain| ==> !r.workers[w].Exited?
    ensures r.workers[w].Idle? || r.workers[w].Exited?
  {
    hide Turns, Assignments, ReadySlot, NoneLost;
    Responsible(r.workers[w]);
  }

  lemma {:induction false} LeastJobMoves(p: Plan, r: Ring) returns (s: Step)
    requires Inv(p, r) && r.consumer.Waiting? && r.next < Least(r.dispatch, |p.plain|)
    ensures Enabled(p, r, s) && !s.Scribble?
  {
    var at := r.next % |r.slots|;
    TurnSlot(r, at, r.next);
    if IsReady(r, r.next) {
      s := Start;
    } else {
      assert Held(r.workers, r.next);
      var w :| 0 <= w < |r.workers| && Holds(r.workers[w], r.next);
      if r.workers[w].Decrypting? {
        s := Publish(w, p.plain[r.next]);
      } else {
        forall v | 0 <= v < |r.workers| ensures r.workers[v] != Decrypting(r.next) {
          assert r.workers[v] == Decrypting(r.next) ==> Holds(r.workers[v], r.next);
        }
        assert !r.slots[at].state.Assigned?;
        s := Assign(w);
      }
    }
  }
}
