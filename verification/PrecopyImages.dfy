/** The pre-copy round with the threads that make its two images: whoever claims the
    baseline or delta request runs a launcher, a device and workers over the ranges found,
    while the application keeps writing. What a worker seals is what the device copied. */
module PrecopyImages {
  import opened Bytes
  import opened PageCrypto
  import opened BaselineV4
  import DirtyBlocks
  import Gate
  import P = Precopy
  import V4 = V4Pipeline

  datatype Image = Image(cfg: V4.Config, pipe: V4.Pipe) {
    ghost predicate Ok(c: Cipher) {
      V4.Inv(cfg, pipe) && |pipe.workers| > 0 && cfg.c == c
    }

    /** The run of workers that whoever claims a request begins with. */
    ghost predicate Starts(c: Cipher, ranges: seq<Range>) {
      cfg.Valid() && cfg.c == c && cfg.ranges == ranges && V4.Init(cfg, pipe) && |pipe.workers| > 0
    }
  }

  /** `base` and `delta` are the runs that make, or made, the two images. */
  datatype Round = Round(s: P.Sys, base: Option<Image>, delta: Option<Image>)

  datatype Step =
    | AtRound(step: P.Step, begun: Image)   // `begun`: the run that starts if the step claims a request
    | BaseWork(work: V4.Step)
    | DeltaWork(work: V4.Step)

  function Place(cfg: V4.Config, i: nat, j: nat): nat
    requires i < |cfg.ranges|
  {
    cfg.ranges[i].va + CHUNK * j
  }

  /** A chunk lands once every byte of it has been copied, with those bytes. */
  ghost predicate Arrives(img: Image, work: V4.Step, copy: seq<byte>, done: set<nat>) {
    work.Land? ==>
      && work.s < |img.pipe.slots| && img.pipe.slots[work.s].work.Some? && img.pipe.slots[work.s].work.value < |img.cfg.items|
      && var slot := img.pipe.slots[work.s]; var it := img.cfg.items[slot.work.value];
      && it.range < |img.cfg.ranges|
      && var a := Place(img.cfg, it.range, it.first + |slot.chunks|);
      a + CHUNK <= |copy| && work.data == copy[a..a + CHUNK] && forall y :: a <= y < a + CHUNK ==> y in done
  }

  /** Byte `a` belongs to a chunk that has landed. */
  ghost predicate Landed(img: Image, a: nat) {
    exists k :: k in img.pipe.copied && k.0 < |img.cfg.ranges| && Place(img.cfg, k.0, k.1) <= a < Place(img.cfg, k.0, k.1) + CHUNK
  }

  predicate Claims(s: P.Sys, step: P.Step, kind: Gate.Kind) {
    step.AtGate? && P.Claims(s.gate, step.step, kind)
  }

  /** The step answers a request of this kind well. */
  predicate AnswersWell(s: P.Sys, step: P.Step, kind: Gate.Kind) {
    && step.AtGate?
    && match step.step
       case Finish(t, ok) => ok && t < |s.gate.threads| && s.gate.threads[t].job == Gate.Serving(kind)
       case FinishBackground(ok) => ok && kind.Base?
       case _ => false
  }

  predicate Made(img: Option<Image>) {
    img.Some? && V4.Drained(img.value.pipe)
  }

  /** Requests are answered well only when their workers have drained without failure; a
      byte is copied once only after the chunk it is in has landed. */
  ghost predicate CanStep(c: Cipher, r: Round, step: Step, allocs: seq<Range>) {
    match step
    case AtRound(p, begun) =>
      && P.CanStep(r.s, p, allocs)
      && (Claims(r.s, p, Gate.Base) ==> begun.Starts(c, p.live))
      && (Claims(r.s, p, Gate.Delta) ==> begun.Starts(c, r.s.d.ranges))
      && (AnswersWell(r.s, p, Gate.Base) ==> Made(r.base))
      && (AnswersWell(r.s, p, Gate.Delta) ==> Made(r.delta))
      && (p.CopyBase? ==> r.base.Some? && !Landed(r.base.value, p.a))
      && (p.CopyDelta? ==> r.delta.Some? && !Landed(r.delta.value, p.a))
    case BaseWork(work) =>
      && r.base.Some? && V4.CanStep(r.base.value.cfg, r.base.value.pipe, work)
      && Arrives(r.base.value, work, r.s.d.base, r.s.d.copied)
    case DeltaWork(work) =>
      && r.delta.Some? && V4.CanStep(r.delta.value.cfg, r.delta.value.pipe, work)
      && Arrives(r.delta.value, work, r.s.d.delta, r.s.d.deltaCopied)
  }

  ghost function Worked(img: Image, work: V4.Step): Image
    requires V4.CanStep(img.cfg, img.pipe, work)
  {
    img.(pipe := V4.After(img.cfg, img.pipe, work))
  }

  ghost function After(c: Cipher, r: Round, step: Step, allocs: seq<Range>): Round
    requires CanStep(c, r, step, allocs)
  {
    match step
    case AtRound(p, begun) =>
      Round(P.After(r.s, p, allocs),
            if Claims(r.s, p, Gate.Base) then Some(begun) else r.base,
            if Claims(r.s, p, Gate.Delta) then Some(begun) else r.delta)
    case BaseWork(work) => r.(base := Some(Worked(r.base.value, work)))
    case DeltaWork(work) => r.(delta := Some(Worked(r.delta.value, work)))
  }

  // ---------------------------------------------------------------- invariant

  /** What landed is what was copied. */
  ghost predicate Linked(img: Image, copy: seq<byte>) {
    forall k :: k in img.pipe.copied ==>
      && k.0 < |img.cfg.ranges| && Place(img.cfg, k.0, k.1) + CHUNK <= |copy|
      && img.pipe.copied[k] == copy[Place(img.cfg, k.0, k.1)..Place(img.cfg, k.0, k.1) + CHUNK]
  }

  ghost predicate BaseOk(c: Cipher, r: Round)
    requires r.base.Some?
  {
    r.base.value.Ok(c) && r.base.value.cfg.ranges == r.s.d.snap && Linked(r.base.value, r.s.d.base)
  }

  ghost predicate DeltaOk(c: Cipher, r: Round)
    requires r.delta.Some?
  {
    r.delta.value.Ok(c) && Linked(r.delta.value, r.s.d.delta)
  }

  ghost predicate ImagesOk(c: Cipher, r: Round) {
    (r.base.Some? ==> BaseOk(c, r)) && (r.delta.Some? ==> DeltaOk(c, r))
  }

  /** The round got only so far with its images made: `madeBase`, `madeDelta` and whether the
      delta is over the ranges listed. */
  ghost predicate MadeInv(s: P.Sys, madeBase: bool, madeDelta: bool, listed: bool) {
    && (s.gate.agent.BaseWait? && s.gate.base.done && !s.gate.base.err ==> madeBase)
    && (s.d.stage.Based? || s.d.stage.Listed? || s.d.stage.Served? ==> madeBase)
    && (P.Copying(s.gate.delta) ==> listed)
    && (s.gate.agent.DeltaWait? && s.gate.delta.done && !s.gate.delta.err ==> madeDelta && listed)
    && (s.d.stage.Served? ==> madeDelta && listed)
  }

  predicate OverListed(r: Round) {
    r.delta.Some? && r.delta.value.cfg.ranges == r.s.d.ranges
  }

  ghost predicate Inv(c: Cipher, r: Round, allocs: seq<Range>) {
    P.Inv(r.s, allocs) && ImagesOk(c, r) && MadeInv(r.s, Made(r.base), Made(r.delta), OverListed(r))
  }

  // ------------------------------------------------------------------- steps

  lemma {:induction false} ClaimsWhenAsked(s: P.Sys, step: P.Step, kind: Gate.Kind, allocs: seq<Range>)
    requires P.Inv(s, allocs) && P.CanStep(s, step, allocs) && Claims(s, step, kind)
    ensures if kind.Base? then s.gate.agent.BaseWait? && !s.gate.base.done && s.d.stage.Armed?
            else s.gate.agent.DeltaWait? && !s.gate.delta.done && s.d.stage.Listed?
  {
    hide P.CopyInv, P.FrozenInv, P.OneOwner;
  }

  lemma {:induction false} DataKeepsMade(s: P.Sys, step: P.Step, allocs: seq<Range>, madeBase: bool, madeDelta: bool, listed: bool)
    requires P.Inv(s, allocs) && P.CanStep(s, step, allocs) && MadeInv(s, madeBase, madeDelta, listed) && !step.AtGate?
    ensures MadeInv(P.After(s, step, allocs), madeBase && !Claims(s, step, Gate.Base), madeDelta && !Claims(s, step, Gate.Delta),
                    Claims(s, step, Gate.Delta) || (listed && !step.ListDirty?))
  {
    hide P.CopyInv, P.FrozenInv, P.OneOwner, P.Sizes, Gate.MutexInv, Gate.InitInv, Gate.StopInv, Gate.JobInv;
    hide DirtyBlocks.RunsOf, DirtyBlocks.SortedOf, P.Reports;
  }

  lemma {:induction false} MoveKeepsMade(s: P.Sys, step: P.Step, allocs: seq<Range>, madeBase: bool, madeDelta: bool, listed: bool)
    requires P.Inv(s, allocs) && P.CanStep(s, step, allocs) && MadeInv(s, madeBase, madeDelta, listed) && step.AtGate? && Gate.Moves(step.step)
    ensures MadeInv(P.After(s, step, allocs), madeBase && !Claims(s, step, Gate.Base), madeDelta && !Claims(s, step, Gate.Delta),
                    Claims(s, step, Gate.Delta) || (listed && !step.ListDirty?))
  {
    hide P.CopyInv, P.FrozenInv, P.OneOwner, P.Sizes, Gate.MutexInv, Gate.InitInv, Gate.StopInv, Gate.JobInv, Gate.ClaimsInv;
  }

  lemma {:induction false} TakeKeepsMade(s: P.Sys, step: P.Step, allocs: seq<Range>, madeBase: bool, madeDelta: bool, listed: bool)
    requires P.Inv(s, allocs) && P.CanStep(s, step, allocs) && MadeInv(s, madeBase, madeDelta, listed) && step.AtGate? && step.step.Take?
    ensures MadeInv(P.After(s, step, allocs), madeBase && !Claims(s, step, Gate.Base), madeDelta && !Claims(s, step, Gate.Delta),
                    Claims(s, step, Gate.Delta) || (listed && !step.ListDirty?))
  {
    Gate.ServingMovesNobody(s.gate, step.step);
    if Claims(s, step, Gate.Base) {
      ClaimsWhenAsked(s, step, Gate.Base, allocs);
    }
    if Claims(s, step, Gate.Delta) {
      ClaimsWhenAsked(s, step, Gate.Delta, allocs);
    }
    hide P.CopyInv, P.FrozenInv, P.OneOwner, P.Sizes, Gate.BasicInv;
  }

  lemma {:induction false} ServeKeepsMade(s: P.Sys, step: P.Step, allocs: seq<Range>, madeBase: bool, madeDelta: bool, listed: bool)
    requires P.Inv(s, allocs) && P.CanStep(s, step, allocs) && MadeInv(s, madeBase, madeDelta, listed) && step.AtGate? && Gate.Serves(step.step) && !step.step.Take?
    requires AnswersWell(s, step, Gate.Base) ==> madeBase
    requires AnswersWell(s, step, Gate.Delta) ==> madeDelta
    ensures MadeInv(P.After(s, step, allocs), madeBase && !Claims(s, step, Gate.Base), madeDelta && !Claims(s, step, Gate.Delta),
                    Claims(s, step, Gate.Delta) || (listed && !step.ListDirty?))
  {
    Gate.ServingMovesNobody(s.gate, step.step);
    hide P.CopyInv, P.FrozenInv, P.OneOwner, P.Sizes, Gate.BasicInv;
  }

  lemma {:induction false} AgentKeepsMade(s: P.Sys, step: P.Step, allocs: seq<Range>, madeBase: bool, madeDelta: bool, listed: bool)
    requires P.Inv(s, allocs) && P.CanStep(s, step, allocs) && MadeInv(s, madeBase, madeDelta, listed) && step.AtGate? && !Gate.IsThreadStep(step.step)
    ensures MadeInv(P.After(s, step, allocs), madeBase && !Claims(s, step, Gate.Base), madeDelta && !Claims(s, step, Gate.Delta),
                    Claims(s, step, Gate.Delta) || (listed && !step.ListDirty?))
  {
    hide P.CopyInv, P.FrozenInv, P.OneOwner, P.Sizes, Gate.BasicInv;
  }

  lemma {:induction false} RoundKeepsMade(s: P.Sys, step: P.Step, allocs: seq<Range>, madeBase: bool, madeDelta: bool, listed: bool)
    requires P.Inv(s, allocs) && P.CanStep(s, step, allocs) && MadeInv(s, madeBase, madeDelta, listed)
    requires AnswersWell(s, step, Gate.Base) ==> madeBase
    requires AnswersWell(s, step, Gate.Delta) ==> madeDelta
    ensures MadeInv(P.After(s, step, allocs), madeBase && !Claims(s, step, Gate.Base), madeDelta && !Claims(s, step, Gate.Delta),
                    Claims(s, step, Gate.Delta) || (listed && !step.ListDirty?))
  {
    hide P.Inv, P.CanStep, P.After, MadeInv, AnswersWell, Claims;
    if !step.AtGate? {
      DataKeepsMade(s, step, allocs, madeBase, madeDelta, listed);
    } else if step.step.Take? {
      TakeKeepsMade(s, step, allocs, madeBase, madeDelta, listed);
    } else if Gate.Moves(step.step) {
      MoveKeepsMade(s, step, allocs, madeBase, madeDelta, listed);
    } else if Gate.Serves(step.step) {
      ServeKeepsMade(s, step, allocs, madeBase, madeDelta, listed);
    } else {
      AgentKeepsMade(s, step, allocs, madeBase, madeDelta, listed);
    }
  }

  lemma {:induction false} LinkKept(img: Image, work: V4.Step, copy: seq<byte>, done: set<nat>)
    requires Linked(img, copy) && V4.CanStep(img.cfg, img.pipe, work) && Arrives(img, work, copy, done)
    ensures Linked(Worked(img, work), copy)
  {
    V4.CopiedBy(img.cfg, img.pipe, work);
    hide V4.CanStep, V4.After;
  }

  /** Work on an image keeps it in order and linked to the copy, and made if it was. */
  lemma {:induction false} WorkKeeps(c: Cipher, img: Image, work: V4.Step, copy: seq<byte>, done: set<nat>)
    requires img.Ok(c) && Linked(img, copy) && V4.CanStep(img.cfg, img.pipe, work) && Arrives(img, work, copy, done)
    ensures Worked(img, work).Ok(c) && Linked(Worked(img, work), copy)
    ensures V4.Drained(img.pipe) ==> V4.Drained(Worked(img, work).pipe)
  {
    hide V4.Inv, V4.CanStep, V4.After, V4.Drained, Arrives;
    V4.StepKeepsInv(img.cfg, img.pipe, work);
    V4.SameWorkers(img.cfg, img.pipe, work);
    LinkKept(img, work, copy, done);
    if V4.Drained(img.pipe) {
      V4.DrainedStays(img.cfg, img.pipe, work);
    }
    hide Linked;
  }

  lemma {:induction false} BegunOk(c: Cipher, img: Image, ranges: seq<Range>, copy: seq<byte>)
    requires img.Starts(c, ranges)
    ensures img.Ok(c) && Linked(img, copy) && img.cfg.ranges == ranges
  {
    V4.InitInv(img.cfg, img.pipe);
    hide V4.Inv;
  }

  /** A byte of a chunk that has not landed may still be copied. */
  lemma {:induction false} CopyKeeps(img: Image, copy: seq<byte>, a: nat, v: byte)
    requires Linked(img, copy) && a < |copy| && !Landed(img, a)
    ensures Linked(img, copy[a := v])
  {
    forall k | k in img.pipe.copied
      ensures var at := Place(img.cfg, k.0, k.1); copy[at..at + CHUNK] == copy[a := v][at..at + CHUNK]
    {
      var at := Place(img.cfg, k.0, k.1);
      assert !(at <= a < at + CHUNK);
    }
  }

  lemma {:induction false} RoundKeepsBase(c: Cipher, r: Round, step: Step, allocs: seq<Range>)
    requires Inv(c, r, allocs) && CanStep(c, r, step, allocs) && step.AtRound?
    ensures var r' := After(c, r, step, allocs); r'.base.Some? ==> BaseOk(c, r')
  {
    hide Image.Ok, Image.Starts, P.Inv, MadeInv, AnswersWell, Gate.CanStep, Gate.After, P.Follows, Linked, Landed;
    var s' := P.After(r.s, step.step, allocs);
    if Claims(r.s, step.step, Gate.Base) {
      BegunOk(c, step.begun, step.step.live, s'.d.base);
    } else if step.step.CopyBase? {
      CopyKeeps(r.base.value, r.s.d.base, step.step.a, r.s.d.mem[step.step.a]);
    }
  }

  lemma {:induction false} RoundKeepsDelta(c: Cipher, r: Round, step: Step, allocs: seq<Range>)
    requires Inv(c, r, allocs) && CanStep(c, r, step, allocs) && step.AtRound?
    ensures var r' := After(c, r, step, allocs); r'.delta.Some? ==> DeltaOk(c, r')
  {
    hide Image.Ok, Image.Starts, P.Inv, MadeInv, AnswersWell, Gate.CanStep, Gate.After, P.Follows, Linked, Landed;
    var s' := P.After(r.s, step.step, allocs);
    if Claims(r.s, step.step, Gate.Delta) {
      BegunOk(c, step.begun, r.s.d.ranges, s'.d.delta);
    } else if step.step.CopyDelta? {
      CopyKeeps(r.delta.value, r.s.d.delta, step.step.a, r.s.d.mem[step.step.a]);
    }
  }

  lemma {:induction false} RoundKeepsInv(c: Cipher, r: Round, step: Step, allocs: seq<Range>)
    requires Inv(c, r, allocs) && CanStep(c, r, step, allocs) && step.AtRound?
    ensures Inv(c, After(c, r, step, allocs), allocs)
  {
    hide P.Inv, P.CanStep, P.After, BaseOk, DeltaOk, Claims, AnswersWell, V4.Drained, Image.Starts, Landed;
    P.StepKeepsInv(r.s, step.step, allocs);
    RoundKeepsBase(c, r, step, allocs);
    RoundKeepsDelta(c, r, step, allocs);
    RoundKeepsMade(r.s, step.step, allocs, Made(r.base), Made(r.delta), OverListed(r));
    if !step.step.ListDirty? {
      ListedStays(r, step.step, allocs);
    }
    if Claims(r.s, step.step, Gate.Delta) {
      ClaimedIsListed(c, r, step, allocs);
    }
  }

  lemma {:induction false} ClaimedIsListed(c: Cipher, r: Round, step: Step, allocs: seq<Range>)
    requires CanStep(c, r, step, allocs) && step.AtRound? && Claims(r.s, step.step, Gate.Delta)
    ensures OverListed(After(c, r, step, allocs)) && !step.step.ListDirty?
  {
    ListedStays(r, step.step, allocs);
    hide P.CanStep, P.After;
  }

  lemma {:induction false} BaseWorkKeepsInv(c: Cipher, r: Round, work: V4.Step, allocs: seq<Range>)
    requires Inv(c, r, allocs) && CanStep(c, r, BaseWork(work), allocs)
    ensures Inv(c, After(c, r, BaseWork(work), allocs), allocs)
  {
    hide P.Inv, Image.Ok, Linked, V4.CanStep, V4.After, V4.Drained, Arrives;
    WorkKeeps(c, r.base.value, work, r.s.d.base, r.s.d.copied);
  }

  lemma {:induction false} DeltaWorkKeepsInv(c: Cipher, r: Round, work: V4.Step, allocs: seq<Range>)
    requires Inv(c, r, allocs) && CanStep(c, r, DeltaWork(work), allocs)
    ensures Inv(c, After(c, r, DeltaWork(work), allocs), allocs)
  {
    hide P.Inv, Image.Ok, Linked, V4.CanStep, V4.After, V4.Drained, Arrives;
    WorkKeeps(c, r.delta.value, work, r.s.d.delta, r.s.d.deltaCopied);
  }

  /** Every step of the round and of the threads behind either image keeps the invariant. */
  lemma {:induction false} StepKeepsInv(c: Cipher, r: Round, step: Step, allocs: seq<Range>)
    requires Inv(c, r, allocs) && CanStep(c, r, step, allocs)
    ensures Inv(c, After(c, r, step, allocs), allocs)
  {
    hide Inv, CanStep, After;
    match step
    case AtRound(_, _) => RoundKeepsInv(c, r, step, allocs);
    case BaseWork(work) => BaseWorkKeepsInv(c, r, work, allocs);
    case DeltaWork(work) => DeltaWorkKeepsInv(c, r, work, allocs);
  }

  lemma {:induction false} ListedStays(r: Round, step: P.Step, allocs: seq<Range>)
    requires P.CanStep(r.s, step, allocs) && !step.ListDirty?
    ensures P.After(r.s, step, allocs).d.ranges == r.s.d.ranges
  {
    hide Gate.CanStep, Gate.After, P.Follows;
  }

  // ------------------------------------------------------------- main results

  ghost predicate Init(r: Round) {
    P.Init(r.s) && r.base.None? && r.delta.None?
  }

  ghost predicate Next(c: Cipher, r: Round, r': Round, allocs: seq<Range>) {
    exists step :: CanStep(c, r, step, allocs) && r' == After(c, r, step, allocs)
  }

  ghost predicate Run(c: Cipher, trace: seq<Round>, allocs: seq<Range>) {
    |trace| > 0 && Init(trace[0]) && forall i :: 0 < i < |trace| ==> Next(c, trace[i - 1], trace[i], allocs)
  }

  lemma {:induction false} InitInv(c: Cipher, r: Round, allocs: seq<Range>)
    requires Init(r)
    ensures Inv(c, r, allocs)
  {
    Gate.FreshInv(r.s.gate);
    hide Gate.BasicInv;
  }

  lemma {:induction false} RunKeepsInv(c: Cipher, trace: seq<Round>, allocs: seq<Range>, n: nat)
    requires Run(c, trace, allocs) && n < |trace|
    ensures Inv(c, trace[n], allocs)
  {
    hide Inv, Init;
    if n == 0 {
      InitInv(c, trace[0], allocs);
    } else {
      RunKeepsInv(c, trace, allocs, n - 1);
      assert Next(c, trace[n - 1], trace[n], allocs);
      var step :| CanStep(c, trace[n - 1], step, allocs) && trace[n] == After(c, trace[n - 1], step, allocs);
      hide CanStep, After;
      StepKeepsInv(c, trace[n - 1], step, allocs);
    }
  }

  /** The file a run of workers has made, taken apart from its bytes. */
  function FileIn(img: Image): File
    requires Readable(img)
  {
    V4.FileBy(img.cfg, img.pipe)
  }

  /** A drained run sealed what was copied for its ranges. */
  lemma {:induction false} ImageMade(c: Cipher, img: Image, copy: seq<byte>)
    requires img.Ok(c) && Linked(img, copy) && V4.Drained(img.pipe)
    ensures Readable(img) && c.Sound() && FileIn(img).ranges == img.cfg.ranges
    ensures SealedFile(c, V4.CopiesOf(img.pipe), img.cfg.base, FileIn(img))
    ensures P.Took(V4.CopiesOf(img.pipe), copy, img.cfg.ranges)
  {
    V4.StateIsSealed(img.cfg, img.pipe);
    V4.SoundCipher(img.cfg);
    hide SealedFile, V4.Inv, V4.Drained, Cipher.Sound;
    var copies := V4.CopiesOf(img.pipe);
    forall i, j | 0 <= i < |img.cfg.ranges| && 0 <= j < img.cfg.ranges[i].length / CHUNK
      ensures Place(img.cfg, i, j) + CHUNK <= |copy| && copies(i, j) == copy[Place(img.cfg, i, j)..Place(img.cfg, i, j) + CHUNK]
    {
      V4.DrainedCells(img.cfg, img.pipe, i, j);
    }
  }

  /** Device to device, over every interleaving of the application, the agents, the threads
      that serve it and the launchers, devices and workers of both images: once the delta
      has been served with all runs listed, the files the workers made restore any aligned
      window that was recorded before the round and that the baseline holds whole to the
      memory at the boundary. */
  lemma {:induction false} RoundRestores(c: Cipher, trace: seq<Round>, allocs: seq<Range>, n: nat, k: nat, va: nat, size: nat,
                                         res: Result<seq<seq<byte>>>)
    requires Run(c, trace, allocs) && n < |trace| && trace[n].s.d.stage.Served? && trace[n].s.d.full
    requires va % CHUNK == 0 && va + size <= |trace[n].s.d.mem|
    requires k < |allocs| && allocs[k].va <= va && va + size <= allocs[k].va + allocs[k].length
    ensures Ready(trace[n])
    ensures var base, delta := FileIn(trace[n].base.value), FileIn(trace[n].delta.value);
            var i := FindRange(base.ranges, va, size);
            i < |base.ranges| && WholeWindow(base.ranges[i], va, size) && Restores(c, base, delta, i, va, size, res) ==>
              && res.Ok? && |res.value| * CHUNK == size
              && forall x :: 0 <= x < |res.value| ==> Boundary(trace[n], va + CHUNK * x, res.value[x])
  {
    RunKeepsInv(c, trace, allocs, n);
    var r := trace[n];
    hide Run, P.Inv, Image.Ok, Linked, FindRange, SealedFile, Restores, WholeWindow, P.Took, Cipher.Sound, V4.CopiesOf, V4.Drained;
    ImageMade(c, r.base.value, r.s.d.base);
    ImageMade(c, r.delta.value, r.s.d.delta);
    hide FileIn;
    var base, delta := FileIn(r.base.value), FileIn(r.delta.value);
    var i := FindRange(base.ranges, va, size);
    if i < |base.ranges| && WholeWindow(base.ranges[i], va, size) && Restores(c, base, delta, i, va, size, res) {
      P.StateRestores(r.s, allocs, c, V4.CopiesOf(r.base.value.pipe), V4.CopiesOf(r.delta.value.pipe),
                      r.base.value.cfg.base, r.delta.value.cfg.base, base, delta, k, va, size, res);
    }
  }

  /** Both files can be taken apart. */
  ghost predicate Ready(r: Round) {
    && r.base.Some? && r.delta.Some? && Made(r.base) && Made(r.delta)
    && Readable(r.base.value) && Readable(r.delta.value)
  }

  predicate Readable(img: Image) {
    AllWhole(img.cfg.ranges, |img.cfg.ranges|) && FileSize(img.cfg.start, img.cfg.ranges, img.cfg.withMap) <= |img.pipe.img|
  }

  /** The chunk is the memory at the boundary. */
  ghost predicate Boundary(r: Round, a: nat, chunk: seq<byte>) {
    a + CHUNK <= |r.s.d.target| && chunk == r.s.d.target[a..a + CHUNK]
  }
}
