/** The pre-copy round end to end: the gate, an application that keeps writing GPU memory,
    the concurrent baseline copy, the dirty listing at the boundary, and the delta. */
module Precopy {
  import opened Bytes
  import opened PageCrypto
  import opened BaselineV4
  import opened DirtyBlocks
  import Gate

  const PAGE: nat := 0x1_0000

  /** How far the agent's round has come. */
  datatype Stage = Unarmed | Armed | Based | Listed | Served

  /** Memory now and at the last arrival at the boundary; the tracker's dirty 64 KB pages;
      what the baseline and the delta copied, from which ranges and which bytes so far;
      and, once listed, the memory to be reproduced and whether the list is complete. */
  datatype Data = Data(
    mem: seq<byte>, stopMem: seq<byte>, stage: Stage, dirty: set<nat>,
    snap: seq<Range>, base: seq<byte>, copied: set<nat>,
    ranges: seq<Range>, full: bool, target: seq<byte>, delta: seq<byte>, deltaCopied: set<nat>)

  datatype Sys = Sys(gate: Gate.State, d: Data)

  datatype Step =
    | AtGate(step: Gate.Step, live: seq<Range>)     // `live`: allocations a baseline taker finds
    | Arm
    | Write(a: nat, v: byte)                        // a kernel of the application
    | CopyBase(a: nat)
    | ListDirty(list: seq<nat>, sorted: seq<nat>)
    | CopyDelta(a: nat)
    | Finalize

  ghost predicate AllCopied(rs: seq<Range>, done: set<nat>) {
    forall a: nat :: InSome(rs, a) ==> a in done
  }

  /** The tracker reports every dirty page. */
  ghost predicate Reports(list: seq<nat>, dirty: set<nat>) {
    forall p :: p in dirty ==> exists i :: 0 <= i < |list| && list[i] / PAGE == p
  }

  /** Serving a request ends well only when every byte has been copied; the agent follows
      the order of its program. */
  ghost predicate Follows(s: Sys, step: Gate.Step) {
    match step
    case AskBase => s.d.stage.Armed?
    case Ask => s.d.stage.Based?
    case AskDelta => s.d.stage.Listed?
    case Leave => false
    case Finish(t, ok) =>
      t < |s.gate.threads| && s.gate.threads[t].job.Serving? &&
      (ok ==> if s.gate.threads[t].job.kind.Base? then AllCopied(s.d.snap, s.d.copied) else AllCopied(s.d.ranges, s.d.deltaCopied))
    case FinishBackground(ok) => ok ==> AllCopied(s.d.snap, s.d.copied)
    case _ => true
  }

  predicate Copying(ch: Gate.Channel) {
    ch.req == 2 && !ch.done
  }

  ghost predicate CanStep(s: Sys, step: Step, allocs: seq<Range>) {
    match step
    case AtGate(g, _) => Gate.CanStep(s.gate, g) && Follows(s, g)
    case Arm => s.gate.agent.Ready? && s.d.stage.Unarmed?
    case Write(a, _) => a < |s.d.mem| && !Gate.At(s.gate, 0, Gate.Parked)
    case CopyBase(a) => Copying(s.gate.base) && InSome(s.d.snap, a) && a < |s.d.mem| == |s.d.base|
    case ListDirty(list, sorted) =>
      s.gate.agent.Stopped? && s.d.stage.Based? && Reports(list, s.d.dirty) && SortedOf(list, sorted)
    case CopyDelta(a) => Copying(s.gate.delta) && InSome(s.d.ranges, a) && a < |s.d.mem| == |s.d.delta|
    case Finalize => s.gate.agent.Idle? && !s.d.stage.Unarmed?
  }

  /** The step claims the open request of this kind, and copying for it begins. */
  predicate Claims(g: Gate.State, step: Gate.Step, kind: Gate.Kind) {
    step.Take? && step.t < |g.threads| && g.threads[step.t].job == Gate.Saw(kind) && Gate.Chan(g, kind).req == 1
  }

  /** What a step at the gate means for the copies. */
  function GateData(s: Sys, g: Gate.Step, live: seq<Range>): Data {
    var d := s.d;
    match g
    case Start => d.(stage := Unarmed)
    case Take(_, _) =>
      if Claims(s.gate, g, Gate.Base) then d.(snap := live, copied := {})
      else if Claims(s.gate, g, Gate.Delta) then d.(deltaCopied := {})
      else d
    case SeeBase => if s.gate.base.err then d else d.(stage := Based)
    case Arrive(_) => d.(stopMem := d.mem)
    case SeeDelta => if s.gate.delta.err then d else d.(stage := Served)
    case _ => d
  }

  function After(s: Sys, step: Step, allocs: seq<Range>): Sys
    requires CanStep(s, step, allocs)
  {
    var d := s.d;
    match step
    case AtGate(g, live) => Sys(Gate.After(s.gate, g), GateData(s, g, live))
    case Arm => s.(d := d.(stage := Armed, dirty := {}, copied := {}))
    case Write(a, v) => s.(d := d.(mem := d.mem[a := v], dirty := if d.stage.Unarmed? then d.dirty else d.dirty + {a / PAGE}))
    case CopyBase(a) => s.(d := d.(base := d.base[a := d.mem[a]], copied := d.copied + {a}))
    case ListDirty(list, sorted) =>
      var runs := RunsOf(sorted, allocs);
      s.(d := d.(stage := Listed, ranges := Capped(runs), full := |runs| <= MAX_RANGES, target := d.stopMem, deltaCopied := {}))
    case CopyDelta(a) => s.(d := d.(delta := d.delta[a := d.mem[a]], deltaCopied := d.deltaCopied + {a}))
    case Finalize => s.(d := d.(stage := Unarmed))
  }

  // ---------------------------------------------------------------- invariant

  /** Only thread 0 belongs to the process that owns the gate and launches kernels. */
  ghost predicate OneOwner(g: Gate.State) {
    forall t :: 0 <= t < |g.threads| && g.threads[t].owner ==> t == 0
  }

  ghost predicate Sizes(d: Data) {
    |d.stopMem| == |d.base| == |d.target| == |d.delta| == |d.mem|
  }

  /** Every byte copied so far is unchanged since, or its page is marked. */
  ghost predicate UnchangedOrDirty(d: Data)
    requires Sizes(d)
  {
    forall a: nat :: a in d.copied && a < |d.mem| ==> d.base[a] == d.mem[a] || a / PAGE in d.dirty
  }

  /** Address `a` was recorded before the round with its whole block, and the baseline
      found it allocated. */
  ghost predicate Tracked(d: Data, allocs: seq<Range>, a: nat) {
    InAllocs(allocs, BlockOf(a)) && InSome(d.snap, a) && a < |d.mem|
  }

  ghost predicate BaseOrListed(d: Data, allocs: seq<Range>)
    requires Sizes(d)
  {
    forall a: nat :: Tracked(d, allocs, a) ==> InSome(d.ranges, a) || d.base[a] == d.target[a]
  }

  ghost predicate DeltaRight(d: Data)
    requires Sizes(d)
  {
    forall a: nat :: a in d.deltaCopied && a < |d.mem| ==> d.delta[a] == d.target[a]
  }

  /** Where the agent is and how far the round has come agree. */
  ghost predicate StageInv(s: Sys) {
    && (s.gate.agent.BaseWait? ==> s.d.stage.Armed?)
    && (s.gate.agent.Asked? ==> s.d.stage.Based?)
    && (s.gate.agent.DeltaWait? ==> s.d.stage.Listed?)
  }

  ghost predicate CopyInv(s: Sys, allocs: seq<Range>)
    requires Sizes(s.d)
  {
    && (!s.d.stage.Unarmed? ==> UnchangedOrDirty(s.d))
    && (s.gate.agent.BaseWait? && s.gate.base.done && !s.gate.base.err ==> AllCopied(s.d.snap, s.d.copied))
    && (s.d.stage.Based? || s.d.stage.Listed? || s.d.stage.Served? ==> AllCopied(s.d.snap, s.d.copied))
    && (s.d.stage.Listed? || s.d.stage.Served? ==>
          && (s.d.full ==> BaseOrListed(s.d, allocs)) && DeltaRight(s.d) && Separate(s.d.ranges))
    && (s.gate.agent.DeltaWait? && s.gate.delta.done && !s.gate.delta.err ==> AllCopied(s.d.ranges, s.d.deltaCopied))
    && (s.d.stage.Served? ==> AllCopied(s.d.ranges, s.d.deltaCopied))
  }

  /** Memory stands still while the application is parked, and that is the memory the
      round reproduces. */
  ghost predicate FrozenInv(s: Sys) {
    && (Gate.At(s.gate, 0, Gate.Parked) ==> s.d.mem == s.d.stopMem)
    && ((s.gate.agent.Stopped? || s.gate.agent.DeltaWait?) && (s.d.stage.Listed? || s.d.stage.Served?) ==> s.d.target == s.d.stopMem)
  }

  ghost predicate Inv(s: Sys, allocs: seq<Range>) {
    Gate.BasicInv(s.gate) && OneOwner(s.gate) && Sizes(s.d) && StageInv(s) && CopyInv(s, allocs) && FrozenInv(s)
  }

  /** From the moment the agent has seen the boundary, thread 0 is in the wait loop. */
  lemma {:induction false} StoppedIsParked(g: Gate.State)
    requires Gate.MutexInv(g) && Gate.StopInv(g) && OneOwner(g) && (g.agent.Stopped? || g.agent.DeltaWait?)
    ensures Gate.At(g, 0, Gate.Parked)
    ensures forall t :: 0 <= t < |g.threads| ==> g.threads[t].spot != Gate.Arriving
  {
    var t := g.mutex.value;
    assert Gate.At(g, t, Gate.Parked) && g.threads[t].owner;
    assert forall u :: 0 <= u < |g.threads| && Gate.Holds(g.threads[u]) ==> u == t;
  }

  // ------------------------------------------------------------- data steps

  lemma {:induction false} WriteKeepsInv(s: Sys, a: nat, v: byte, allocs: seq<Range>)
    requires Inv(s, allocs) && CanStep(s, Write(a, v), allocs)
    ensures Inv(After(s, Write(a, v), allocs), allocs)
  {
    hide Gate.BasicInv, OneOwner, AllCopied, InSome, Separate;
  }

  lemma {:induction false} CopyBaseKeepsInv(s: Sys, a: nat, allocs: seq<Range>)
    requires Inv(s, allocs) && CanStep(s, CopyBase(a), allocs)
    ensures Inv(After(s, CopyBase(a), allocs), allocs)
  {
    hide OneOwner, InSome, Separate;
  }

  lemma {:induction false} CopyDeltaKeepsInv(s: Sys, a: nat, allocs: seq<Range>)
    requires Inv(s, allocs) && CanStep(s, CopyDelta(a), allocs)
    ensures Inv(After(s, CopyDelta(a), allocs), allocs)
  {
    assert s.gate.agent.DeltaWait?;
    StoppedIsParked(s.gate);
    hide OneOwner, InSome, Separate;
  }

  lemma {:induction false} SamePageSameBlock(a: nat, b: nat)
    requires a / PAGE == b / PAGE
    ensures BlockOf(a) == BlockOf(b)
  {
    assert a / CHUNK == (a / PAGE) / 32 && b / CHUNK == (b / PAGE) / 32;
    assert BlockOf(a) == CHUNK * (a / CHUNK) && BlockOf(b) == CHUNK * (b / CHUNK);
  }

  lemma {:induction false} DirtyIsListed(dirty: set<nat>, list: seq<nat>, sorted: seq<nat>, allocs: seq<Range>, a: nat)
    requires Reports(list, dirty) && SortedOf(list, sorted) && a / PAGE in dirty && InAllocs(allocs, BlockOf(a))
    ensures InSome(RunsOf(sorted, allocs), a)
  {
    var i :| 0 <= i < |list| && list[i] / PAGE == a / PAGE;
    SamePageSameBlock(list[i], a);
    assert BlockIn(list, BlockOf(a));
    RunsOfExact(list, sorted, allocs, a);
    hide InSome, RunsOf, InAllocs;
  }

  lemma {:induction false} ListDirtyKeepsInv(s: Sys, list: seq<nat>, sorted: seq<nat>, allocs: seq<Range>)
    requires Inv(s, allocs) && CanStep(s, ListDirty(list, sorted), allocs)
    ensures Inv(After(s, ListDirty(list, sorted), allocs), allocs)
  {
    StoppedIsParked(s.gate);
    ListedCopies(s, list, sorted, allocs);
    hide Gate.BasicInv, OneOwner, RunsOf, SortedOf, Reports, CopyInv;
  }

  lemma {:induction false} ListedCopies(s: Sys, list: seq<nat>, sorted: seq<nat>, allocs: seq<Range>)
    requires Inv(s, allocs) && CanStep(s, ListDirty(list, sorted), allocs)
    ensures Sizes(After(s, ListDirty(list, sorted), allocs).d) && CopyInv(After(s, ListDirty(list, sorted), allocs), allocs)
  {
    StoppedIsParked(s.gate);
    hide Gate.BasicInv, OneOwner, Separate, RunsOf, SortedOf, Reports, InAllocs, InSome, Wanted, AllCopied, UnchangedOrDirty;
    CappedWanted(list, sorted, allocs);
    var d := After(s, ListDirty(list, sorted), allocs).d;
    if d.full {
      CleanIsBase(s.d, list, sorted, allocs);
    }
  }

  /** Memory as it stands at the boundary: what the list leaves out, the base has. */
  lemma {:induction false} CleanIsBase(d: Data, list: seq<nat>, sorted: seq<nat>, allocs: seq<Range>)
    requires Sizes(d) && UnchangedOrDirty(d) && AllCopied(d.snap, d.copied) && d.mem == d.stopMem
    requires Reports(list, d.dirty) && SortedOf(list, sorted)
    ensures forall a: nat :: Tracked(d, allocs, a) ==> InSome(RunsOf(sorted, allocs), a) || d.base[a] == d.stopMem[a]
  {
    hide RunsOf, SortedOf, Reports, InAllocs, InSome;
    forall a: nat | Tracked(d, allocs, a) && a / PAGE in d.dirty ensures InSome(RunsOf(sorted, allocs), a) {
      DirtyIsListed(d.dirty, list, sorted, allocs, a);
    }
  }

  lemma {:induction false} MarkKeepsInv(s: Sys, step: Step, allocs: seq<Range>)
    requires Inv(s, allocs) && CanStep(s, step, allocs) && (step.Arm? || step.Finalize?)
    ensures Inv(After(s, step, allocs), allocs)
  {
    hide Gate.BasicInv, OneOwner, AllCopied, Separate;
  }

  // ------------------------------------------------------------- gate steps

  lemma {:induction false} OwnersStay(g: Gate.State, step: Gate.Step)
    requires Gate.BasicInv(g) && OneOwner(g) && Gate.CanStep(g, step)
    ensures Gate.BasicInv(Gate.After(g, step)) && OneOwner(Gate.After(g, step))
  {
    Gate.StepKeepsBasic(g, step);
    Gate.OwnersKept(g, step);
    hide Gate.BasicInv, Gate.CanStep, Gate.After;
  }

  /** Where a step at the gate leaves the agent, the two answers and thread 0. */
  lemma {:induction false} MoveKeepsCopies(s: Sys, g: Gate.Step, live: seq<Range>, allocs: seq<Range>)
    requires Inv(s, allocs) && CanStep(s, AtGate(g, live), allocs) && Gate.Moves(g)
    ensures var s' := After(s, AtGate(g, live), allocs); StageInv(s') && Sizes(s'.d) && CopyInv(s', allocs) && FrozenInv(s')
  {
    if s.gate.agent.Stopped? || s.gate.agent.DeltaWait? {
      StoppedIsParked(s.gate);
    }
    hide OneOwner, AllCopied, Separate, UnchangedOrDirty, BaseOrListed, DeltaRight, Gate.MutexInv, Gate.InitInv, Gate.ClaimsInv, Gate.StopInv;
  }

  lemma {:induction false} TakeKeepsCopies(s: Sys, t: nat, background: bool, live: seq<Range>, allocs: seq<Range>)
    requires Inv(s, allocs) && CanStep(s, AtGate(Gate.Take(t, background), live), allocs)
    ensures var s' := After(s, AtGate(Gate.Take(t, background), live), allocs); StageInv(s') && Sizes(s'.d) && CopyInv(s', allocs) && FrozenInv(s')
  {
    Gate.ServingMovesNobody(s.gate, Gate.Take(t, background));
    assert s.gate.base.req == 1 ==> s.gate.agent.BaseWait? && !s.gate.base.done;
    assert s.gate.delta.req == 1 ==> s.gate.agent.DeltaWait? && !s.gate.delta.done;
    hide Gate.BasicInv, OneOwner, AllCopied, Separate, BaseOrListed;
  }

  lemma {:induction false} ServeKeepsCopies(s: Sys, g: Gate.Step, live: seq<Range>, allocs: seq<Range>)
    requires Inv(s, allocs) && CanStep(s, AtGate(g, live), allocs) && Gate.Serves(g) && !g.Take?
    ensures var s' := After(s, AtGate(g, live), allocs); StageInv(s') && Sizes(s'.d) && CopyInv(s', allocs) && FrozenInv(s')
  {
    Gate.ServingMovesNobody(s.gate, g);
    hide Gate.BasicInv, OneOwner, AllCopied, Separate, UnchangedOrDirty, BaseOrListed, DeltaRight;
  }

  lemma {:induction false} AgentKeepsCopies(s: Sys, g: Gate.Step, live: seq<Range>, allocs: seq<Range>)
    requires Inv(s, allocs) && CanStep(s, AtGate(g, live), allocs) && !Gate.IsThreadStep(g)
    ensures var s' := After(s, AtGate(g, live), allocs); StageInv(s') && Sizes(s'.d) && CopyInv(s', allocs) && FrozenInv(s')
  {
    hide Gate.BasicInv, OneOwner, AllCopied, Separate;
  }

  lemma {:induction false} StepKeepsInv(s: Sys, step: Step, allocs: seq<Range>)
    requires Inv(s, allocs) && CanStep(s, step, allocs)
    ensures Inv(After(s, step, allocs), allocs)
  {
    match step {
      case AtGate(g, live) =>
        OwnersStay(s.gate, g);
        if g.Take? {
          TakeKeepsCopies(s, g.t, g.background, live, allocs);
        } else if Gate.Moves(g) {
          MoveKeepsCopies(s, g, live, allocs);
        } else if Gate.Serves(g) {
          ServeKeepsCopies(s, g, live, allocs);
        } else {
          AgentKeepsCopies(s, g, live, allocs);
        }
      case Write(a, v) => WriteKeepsInv(s, a, v, allocs);
      case CopyBase(a) => CopyBaseKeepsInv(s, a, allocs);
      case CopyDelta(a) => CopyDeltaKeepsInv(s, a, allocs);
      case ListDirty(list, sorted) => ListDirtyKeepsInv(s, list, sorted, allocs);
      case _ => MarkKeepsInv(s, step, allocs);
    }
    hide Gate.BasicInv, OneOwner, Sizes, StageInv, CopyInv, FrozenInv, Gate.CanStep, Gate.After, GateData, Follows;
  }

  ghost predicate Next(s: Sys, s': Sys, allocs: seq<Range>) {
    exists step :: CanStep(s, step, allocs) && s' == After(s, step, allocs)
  }

  ghost predicate Init(s: Sys) {
    Gate.Fresh(s.gate) && OneOwner(s.gate) && Sizes(s.d) && s.d.stage.Unarmed?
  }

  ghost predicate Run(trace: seq<Sys>, allocs: seq<Range>) {
    |trace| > 0 && Init(trace[0]) && forall i :: 0 < i < |trace| ==> Next(trace[i - 1], trace[i], allocs)
  }

  lemma {:induction false} RunKeepsInv(trace: seq<Sys>, allocs: seq<Range>, n: nat)
    requires Run(trace, allocs) && n < |trace|
    ensures Inv(trace[n], allocs)
  {
    if n == 0 {
      Gate.FreshInv(trace[0].gate);
    } else {
      RunKeepsInv(trace, allocs, n - 1);
      assert Next(trace[n - 1], trace[n], allocs);
      var step :| CanStep(trace[n - 1], step, allocs) && trace[n] == After(trace[n - 1], step, allocs);
      StepKeepsInv(trace[n - 1], step, allocs);
    }
  }

  // ------------------------------------------------------------- main results

  /** Over every interleaving of writes, copies, threads and agents: once the delta has
      been served, base overlaid with delta is the memory at the boundary, for every
      address recorded before the round whose runs all fitted the gate's table. */
  lemma {:induction false} PrecopyConsistent(trace: seq<Sys>, allocs: seq<Range>, n: nat, a: nat)
    requires Run(trace, allocs) && n < |trace|
    requires var d := trace[n].d; d.stage.Served? && d.full && Tracked(d, allocs, a)
    ensures var d := trace[n].d; a < |d.delta| == |d.base| == |d.target|
    ensures var d := trace[n].d; d.target[a] == if InSome(d.ranges, a) then d.delta[a] else d.base[a]
  {
    RunKeepsInv(trace, allocs, n);
    hide Run, Gate.BasicInv, Separate, UnchangedOrDirty;
  }

  /** From the listing until the agent resumes, that memory is the memory there is, and
      no write can happen: even though the release order may strand the application. */
  lemma {:induction false} NothingWrittenMeanwhile(trace: seq<Sys>, allocs: seq<Range>, n: nat, a: nat, v: byte)
    requires Run(trace, allocs) && n < |trace|
    requires trace[n].gate.agent.Stopped? || trace[n].gate.agent.DeltaWait?
    requires trace[n].d.stage.Listed? || trace[n].d.stage.Served?
    ensures trace[n].d.target == trace[n].d.mem && !CanStep(trace[n], Write(a, v), allocs)
  {
    RunKeepsInv(trace, allocs, n);
    StoppedIsParked(trace[n].gate);
    hide Run, Gate.BasicInv, CopyInv;
  }

  /** The chunks sealed into an image are the bytes copied for its ranges. */
  ghost predicate Took(staged: Staged, img: seq<byte>, rs: seq<Range>) {
    forall i, j :: 0 <= i < |rs| && 0 <= j < rs[i].length / CHUNK && rs[i].va + CHUNK * j + CHUNK <= |img| ==>
      staged(i, j) == img[rs[i].va + CHUNK * j..rs[i].va + CHUNK * j + CHUNK]
  }

  lemma {:induction false} SeparateDisjoint(rs: seq<Range>)
    requires Separate(rs)
    ensures BlocksDisjoint(rs) && Aligned(rs)
  {
    assert forall k, l, a :: 0 <= k < l < |rs| && InBlock(rs[k], a) ==> !InBlock(rs[l], a);
  }

  /** A range of whole chunks holds the whole chunk at any of its chunk addresses. */
  lemma {:induction false} WholeChunk(r: Range, a: nat)
    requires r.length % CHUNK == 0 && InBlock(r, a) && (a - r.va) % CHUNK == 0
    ensures a + CHUNK <= r.va + r.length && r.va + CHUNK * ((a - r.va) / CHUNK) == a
  {
  }

  lemma {:induction false} BlockOfInside(a: nat, y: nat)
    requires a % CHUNK == 0 && a <= y < a + CHUNK
    ensures BlockOf(y) == a
  {
    assert y / CHUNK == a / CHUNK;
  }

  /** Whole aligned ranges hold all of an aligned chunk or none of it. */
  lemma {:induction false} AllOrNone(rs: seq<Range>, k: nat, a: nat, y: nat)
    requires Separate(rs) && k < |rs| && a % CHUNK == 0 && a <= y < a + CHUNK && InBlock(rs[k], y)
    ensures InBlock(rs[k], a) && (a - rs[k].va) % CHUNK == 0
  {
    var v, l, x := rs[k].va / CHUNK, rs[k].length / CHUNK, a / CHUNK;
    assert rs[k].va == CHUNK * v && rs[k].length == CHUNK * l && a == CHUNK * x;
    assert a - rs[k].va == CHUNK * (x - v);
  }

  lemma {:induction false} ChunkOfDelta(d: Data, staged: Staged, b: nat, a: nat)
    requires Sizes(d) && Separate(d.ranges) && AllCopied(d.ranges, d.deltaCopied) && DeltaRight(d) && Took(staged, d.delta, d.ranges)
    requires b < |d.ranges| && InBlock(d.ranges[b], a) && a % CHUNK == 0 && a + CHUNK <= |d.mem|
    ensures staged(b, (a - d.ranges[b].va) / CHUNK) == d.target[a..a + CHUNK]
  {
    AllOrNone(d.ranges, b, a, a);
    WholeChunk(d.ranges[b], a);
    forall y: nat | a <= y < a + CHUNK ensures d.delta[y] == d.target[y] {
      assert InBlock(d.ranges[b], y);
      assert InSome(d.ranges, y);
    }
    assert d.delta[a..a + CHUNK] == d.target[a..a + CHUNK];
  }

  lemma {:induction false} ChunkOfBase(d: Data, allocs: seq<Range>, staged: Staged, i: nat, a: nat)
    requires Sizes(d) && Separate(d.ranges) && BaseOrListed(d, allocs) && Took(staged, d.base, d.snap)
    requires forall b :: 0 <= b < |d.ranges| ==> !InBlock(d.ranges[b], a)
    requires a % CHUNK == 0 && InAllocs(allocs, a) && a + CHUNK <= |d.mem|
    requires i < |d.snap| && d.snap[i].length % CHUNK == 0 && InBlock(d.snap[i], a) && (a - d.snap[i].va) % CHUNK == 0
    ensures staged(i, (a - d.snap[i].va) / CHUNK) == d.target[a..a + CHUNK]
  {
    WholeChunk(d.snap[i], a);
    forall y: nat | a <= y < a + CHUNK ensures d.base[y] == d.target[y] {
      BlockOfInside(a, y);
      assert InBlock(d.snap[i], y);
      assert Tracked(d, allocs, y);
      if InSome(d.ranges, y) {
        var k :| 0 <= k < |d.ranges| && InBlock(d.ranges[k], y);
        AllOrNone(d.ranges, k, a, y);
        assert false;
      }
    }
    assert d.base[a..a + CHUNK] == d.target[a..a + CHUNK];
  }

  /** The last copy of an aligned chunk recorded before the round is the memory at the
      boundary. */
  lemma {:induction false} LatestIsTarget(d: Data, allocs: seq<Range>, baseStaged: Staged, deltaStaged: Staged, i: nat, a: nat, chunk: seq<byte>)
    requires Sizes(d) && Separate(d.ranges) && BaseOrListed(d, allocs) && AllCopied(d.ranges, d.deltaCopied) && DeltaRight(d)
    requires Took(baseStaged, d.base, d.snap) && Took(deltaStaged, d.delta, d.ranges)
    requires a % CHUNK == 0 && InAllocs(allocs, a) && a + CHUNK <= |d.mem|
    requires i < |d.snap| && d.snap[i].length % CHUNK == 0 && InBlock(d.snap[i], a) && (a - d.snap[i].va) % CHUNK == 0
    requires IsLatest(baseStaged, deltaStaged, d.snap, d.ranges, i, a, chunk)
    ensures chunk == d.target[a..a + CHUNK]
  {
    hide Took, BaseOrListed, AllCopied, DeltaRight, Separate, InAllocs;
    if b :| 0 <= b < |d.ranges| && InBlock(d.ranges[b], a) {
      ChunkOfDelta(d, deltaStaged, b, a);
    } else {
      ChunkOfBase(d, allocs, baseStaged, i, a);
    }
  }

  /** Chunk `x` of an aligned window in a recorded allocation is a recorded block. */
  lemma {:induction false} WindowRecorded(allocs: seq<Range>, k: nat, snap: Range, va: nat, size: nat, x: nat)
    requires k < |allocs| && allocs[k].va <= va && va + size <= allocs[k].va + allocs[k].length
    requires va % CHUNK == 0 && snap.va <= va && (va - snap.va) % CHUNK == 0 && CHUNK * x + CHUNK <= size
    ensures (va + CHUNK * x) % CHUNK == 0 && (va + CHUNK * x - snap.va) % CHUNK == 0 && InAllocs(allocs, va + CHUNK * x)
  {
    var a, b := va / CHUNK, (va - snap.va) / CHUNK;
    assert va + CHUNK * x == CHUNK * (a + x) && va + CHUNK * x - snap.va == CHUNK * (b + x);
  }

  /** The restore of a round's images gives back the memory at the boundary: for a 2 MB
      aligned allocation recorded before the round and found in the baseline it succeeds,
      and every chunk has the bytes the allocation had there. */
  lemma {:induction false} PrecopyRestores(trace: seq<Sys>, allocs: seq<Range>, n: nat, c: Cipher, baseStaged: Staged, deltaStaged: Staged,
                                           baseIv: nat, deltaIv: nat, base: File, delta: File, k: nat, va: nat, size: nat,
                                           r: Result<seq<seq<byte>>>)
    requires Run(trace, allocs) && n < |trace| && trace[n].d.stage.Served? && trace[n].d.full
    requires var d := trace[n].d;
             && base.ranges == d.snap && SealedFile(c, baseStaged, baseIv, base) && Took(baseStaged, d.base, d.snap)
             && delta.ranges == d.ranges && SealedFile(c, deltaStaged, deltaIv, delta) && Took(deltaStaged, d.delta, d.ranges)
    requires c.Sound() && va % CHUNK == 0 && va + size <= |trace[n].d.mem|
    requires k < |allocs| && allocs[k].va <= va && va + size <= allocs[k].va + allocs[k].length
    requires var i := FindRange(base.ranges, va, size);
             i < |base.ranges| && WholeWindow(base.ranges[i], va, size) && Restores(c, base, delta, i, va, size, r)
    ensures r.Ok? && |r.value| * CHUNK == size
    ensures forall x :: 0 <= x < |r.value| ==>
              |trace[n].d.target| == |trace[n].d.mem| && r.value[x] == trace[n].d.target[va + CHUNK * x..va + CHUNK * x + CHUNK]
  {
    RunKeepsInv(trace, allocs, n);
    hide Run, Inv, FindRange, SealedFile, Restores, Took, WholeWindow, Cipher.Sound;
    StateRestores(trace[n], allocs, c, baseStaged, deltaStaged, baseIv, deltaIv, base, delta, k, va, size, r);
  }

  lemma {:induction false} StateRestores(s: Sys, allocs: seq<Range>, c: Cipher, baseStaged: Staged, deltaStaged: Staged,
                                         baseIv: nat, deltaIv: nat, base: File, delta: File, k: nat, va: nat, size: nat,
                                         r: Result<seq<seq<byte>>>)
    requires Inv(s, allocs) && s.d.stage.Served? && s.d.full
    requires && base.ranges == s.d.snap && SealedFile(c, baseStaged, baseIv, base) && Took(baseStaged, s.d.base, s.d.snap)
             && delta.ranges == s.d.ranges && SealedFile(c, deltaStaged, deltaIv, delta) && Took(deltaStaged, s.d.delta, s.d.ranges)
    requires c.Sound() && va % CHUNK == 0 && va + size <= |s.d.mem|
    requires k < |allocs| && allocs[k].va <= va && va + size <= allocs[k].va + allocs[k].length
    requires var i := FindRange(base.ranges, va, size);
             i < |base.ranges| && WholeWindow(base.ranges[i], va, size) && Restores(c, base, delta, i, va, size, r)
    ensures r.Ok? && |r.value| * CHUNK == size && |s.d.target| == |s.d.mem|
    ensures forall x :: 0 <= x < |r.value| ==> r.value[x] == s.d.target[va + CHUNK * x..va + CHUNK * x + CHUNK]
  {
    hide FindRange, BaseOrListed, DeltaRight, AllCopied, UnchangedOrDirty, Gate.BasicInv, IsLatest, InAllocs, Restores, Took;
    var d, i := s.d, FindRange(base.ranges, va, size);
    SeparateDisjoint(d.ranges);
    assert base.ranges[i].length % CHUNK == 0;
    hide Separate;
    AllocRoundTrip(c, baseStaged, deltaStaged, baseIv, deltaIv, base, delta, va, size, r);
    hide SealedFile, BlocksDisjoint;
    forall x | 0 <= x < |r.value| ensures r.value[x] == d.target[va + CHUNK * x..va + CHUNK * x + CHUNK] {
      assert CHUNK * x + CHUNK <= size;
      WindowRecorded(allocs, k, base.ranges[i], va, size, x);
      LatestIsTarget(d, allocs, baseStaged, deltaStaged, i, va + CHUNK * x, r.value[x]);
    }
  }
}
