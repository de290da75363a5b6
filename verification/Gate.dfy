/** The gate shared by the checkpoint agent and any number of application processes and
    threads: the stop request, and the baseline and delta requests claimed by swap. */
module Gate {
  datatype Option<T> = None | Some(value: T)

  datatype Phase = Invalid | Init | AtBoundary | Resume

  datatype Kind = Base | Delta

  /** Request `request` was taken by thread `taker`. */
  datatype Claim = Claim(request: nat, taker: nat)

  /** One request field (0 none, 1 asked, 2 taken) with its answer. `issued` and `claims`
      record what happened: how many requests were made, and who took which. */
  datatype Channel = Channel(req: nat, done: bool, err: bool, background: bool, issued: nat, claims: seq<Claim>)

  datatype Spot =
    | Away          // running the application
    | Signalling    // won the first-sync swap, about to write Init
    | Wanting       // saw ckpt_req, waiting for the checkpoint mutex
    | Locked        // holds the mutex, about to look at ckpt_req again
    | Arriving      // found it set, about to write AtBoundary
    | Parked        // waits for Resume, holding the mutex

  datatype Job = NoJob | Saw(kind: Kind) | Serving(kind: Kind)

  /** A thread of some process; only threads of the owner process stop at the boundary. */
  datatype Thread = Thread(owner: bool, spot: Spot, job: Job)

  datatype Agent =
    | Idle          // no agent attached
    | Ready
    | BaseWait      // baseline asked, waiting for the answer
    | Asked         // ckpt_req set, waiting for AtBoundary
    | Stopped
    | DeltaWait
    | Cleared       // ckpt_req cleared, Resume not written yet
    | LateResumed   // Resume written, ckpt_req still set
    | Resumed

  /** `asks` and `parks` count the stop requests and the arrivals at the boundary. */
  datatype State = State(
    phase: Phase, ckptReq: bool, base: Channel, delta: Channel, initSignaled: bool,
    mutex: Option<nat>, threads: seq<Thread>, agent: Agent, aborted: bool, asks: nat, parks: nat)

  datatype Step =
    | SignalInit(t: nat) | WriteInit(t: nat)
    | SeeReq(t: nat) | Lock(t: nat) | Decide(t: nat) | Arrive(t: nat) | Skip(t: nat) | Release(t: nat)
    | SeeWork(t: nat, kind: Kind) | Take(t: nat, background: bool) | Finish(t: nat, ok: bool)
    | FinishBackground(ok: bool)
    | Start | AskBase | SeeBase | Leave | Ask | SeeBoundary | AskDelta | SeeDelta | Abort
    | ClearFirst | ResumeAfter | ResumeFirst | ClearAfter | EndRound

  function Chan(s: State, k: Kind): Channel {
    if k.Base? then s.base else s.delta
  }

  function WithChan(s: State, k: Kind, ch: Channel): State {
    if k.Base? then s.(base := ch) else s.(delta := ch)
  }

  function Set(s: State, t: nat, th: Thread): State
    requires t < |s.threads|
  {
    s.(threads := s.threads[t := th])
  }

  predicate At(s: State, t: nat, spot: Spot) {
    t < |s.threads| && s.threads[t].spot == spot
  }

  predicate Doing(s: State, t: nat, job: Job) {
    t < |s.threads| && s.threads[t].job == job
  }

  predicate CanStep(s: State, step: Step) {
    match step
    case SignalInit(t) => At(s, t, Away) && Doing(s, t, NoJob) && s.threads[t].owner && !s.initSignaled
    case WriteInit(t) => At(s, t, Signalling)
    case SeeReq(t) => At(s, t, Away) && Doing(s, t, NoJob) && s.threads[t].owner && s.ckptReq
    case Lock(t) => At(s, t, Wanting) && s.mutex.None?
    case Decide(t) => At(s, t, Locked) && s.ckptReq
    case Arrive(t) => At(s, t, Arriving)
    case Skip(t) => At(s, t, Locked) && !s.ckptReq
    case Release(t) => At(s, t, Parked) && Doing(s, t, NoJob) && s.phase == Resume
    case SeeWork(t, k) => Doing(s, t, NoJob) && (At(s, t, Away) || (At(s, t, Parked) && k.Delta?)) && Chan(s, k).req == 1
    case Take(t, background) => t < |s.threads| && s.threads[t].job.Saw? && (background ==> s.threads[t].job.kind.Base?)
    case Finish(t, _) => t < |s.threads| && s.threads[t].job.Serving?
    case FinishBackground(_) => s.base.background
    case Start => s.agent.Idle? && (s.phase == Init || s.phase == Resume)
    case AskBase => s.agent.Ready?
    case SeeBase => s.agent.BaseWait? && s.base.done
    case Leave => s.agent.Ready?
    case Ask => s.agent.Ready?
    case SeeBoundary => s.agent.Asked? && s.phase == AtBoundary
    case AskDelta => s.agent.Stopped?
    case SeeDelta => s.agent.DeltaWait? && s.delta.done
    case Abort => s.agent.Stopped?
    case ClearFirst => s.agent.Stopped?
    case ResumeAfter => s.agent.Cleared?
    case ResumeFirst => s.agent.Stopped?
    case ClearAfter => s.agent.LateResumed?
    case EndRound => s.agent.Resumed?
  }

  function Issued(ch: Channel): Channel {
    ch.(req := 1, done := false, err := false, issued := ch.issued + 1)
  }

  function Reset(ch: Channel): Channel {
    ch.(req := 0, done := false, err := false)
  }

  function Answered(ch: Channel, ok: bool): Channel {
    ch.(done := true, err := ch.err || !ok)
  }

  /** The swap 1 -> 2: exactly one thread that saw the request wins it. */
  function Taken(s: State, t: nat, background: bool): State
    requires t < |s.threads| && s.threads[t].job.Saw?
  {
    var th, k := s.threads[t], s.threads[t].job.kind;
    var ch := Chan(s, k);
    if ch.req != 1 then Set(s, t, th.(job := NoJob))
    else
      var won := ch.(req := 2, background := background, claims := ch.claims + [Claim(ch.issued, t)]);
      WithChan(Set(s, t, th.(job := if background then NoJob else Serving(k))), k, won)
  }

  function After(s: State, step: Step): State
    requires CanStep(s, step)
  {
    match step
    case SignalInit(t) => Set(s, t, s.threads[t].(spot := Signalling)).(initSignaled := true)
    case WriteInit(t) => Set(s, t, s.threads[t].(spot := Away)).(phase := Init)
    case SeeReq(t) => Set(s, t, s.threads[t].(spot := Wanting))
    case Lock(t) => Set(s, t, s.threads[t].(spot := Locked)).(mutex := Some(t))
    case Decide(t) => Set(s, t, s.threads[t].(spot := Arriving))
    case Arrive(t) => Set(s, t, s.threads[t].(spot := Parked)).(phase := AtBoundary, parks := s.parks + 1)
    case Skip(t) => Set(s, t, s.threads[t].(spot := Away)).(mutex := None)
    case Release(t) => Set(s, t, s.threads[t].(spot := Away)).(mutex := None)
    case SeeWork(t, k) => Set(s, t, s.threads[t].(job := Saw(k)))
    case Take(t, background) => Taken(s, t, background)
    case Finish(t, ok) =>
      var k := s.threads[t].job.kind;
      WithChan(Set(s, t, s.threads[t].(job := NoJob)), k, Answered(Chan(s, k), ok))
    case FinishBackground(ok) => s.(base := Answered(s.base, ok).(background := false))
    case Start =>
      if s.phase == Resume then s.(agent := Ready, ckptReq := false, base := Reset(s.base), delta := Reset(s.delta))
      else s.(agent := Ready)
    case AskBase => s.(agent := BaseWait, base := Issued(s.base))
    case SeeBase => s.(agent := if s.base.err then Idle else Ready)
    case Leave => s.(agent := Idle, base := s.base.(req := 0))
    case Ask => s.(agent := Asked, ckptReq := true, asks := s.asks + 1)
    case SeeBoundary => s.(agent := Stopped)
    case AskDelta => s.(agent := DeltaWait, delta := Issued(s.delta))
    case SeeDelta => s.(agent := Stopped)
    case Abort => s.(agent := Idle, aborted := true)
    case ClearFirst => s.(agent := Cleared, ckptReq := false)
    case ResumeAfter => s.(agent := Resumed, phase := Resume)
    case ResumeFirst => s.(agent := LateResumed, phase := Resume)
    case ClearAfter => s.(agent := Resumed, ckptReq := false)
    case EndRound => s.(agent := Idle, base := s.base.(req := 0), delta := s.delta.(req := 0))
  }

  ghost predicate Fresh(s: State) {
    var none := Channel(0, false, false, false, 0, []);
    && s.phase == Invalid && !s.ckptReq && s.base == none && s.delta == none && !s.initSignaled && s.mutex == None
    && (forall t :: 0 <= t < |s.threads| ==> s.threads[t].spot == Away && s.threads[t].job == NoJob)
    && s.agent == Idle && !s.aborted && s.asks == 0 && s.parks == 0
  }

  /** `steps` take `s` to `s'`. */
  ghost predicate Leads(s: State, steps: seq<Step>, s': State)
    decreases |steps|
  {
    if steps == [] then s == s'
    else CanStep(s, steps[0]) && Leads(After(s, steps[0]), steps[1..], s')
  }

  // --------------------------------------------------- what holds in any order

  predicate Holds(th: Thread) {
    th.spot == Locked || th.spot == Arriving || th.spot == Parked
  }

  /** The mutex has its one holder; only owner threads are ever near the boundary. */
  ghost predicate MutexInv(s: State) {
    && (s.mutex.Some? ==> s.mutex.value < |s.threads|)
    && (forall t :: 0 <= t < |s.threads| ==> (Holds(s.threads[t]) <==> s.mutex == Some(t)))
    && (forall t :: 0 <= t < |s.threads| && s.threads[t].spot != Away ==> s.threads[t].owner)
  }

  /** While the gate shows AtBoundary the mutex holder is in the wait loop, and from the
      moment the agent has seen it until it writes Resume it stays so. */
  ghost predicate StopInv(s: State) {
    && (s.phase == AtBoundary ==> s.mutex.Some? && At(s, s.mutex.value, Parked))
    && (s.agent.Stopped? || s.agent.DeltaWait? || s.agent.Cleared? ==> s.phase == AtBoundary)
  }

  /** On its way to the boundary and in the wait loop a thread serves nothing but deltas. */
  ghost predicate JobInv(s: State) {
    forall t :: 0 <= t < |s.threads| && s.threads[t].spot != Away ==> s.threads[t].job.NoJob? || s.threads[t].job.kind.Delta?
  }

  /** The first sync is signalled once, before any agent attaches. */
  ghost predicate InitInv(s: State) {
    && (!s.initSignaled ==> s.phase == Invalid)
    && (s.phase == Invalid ==> s.agent.Idle? && !s.ckptReq && s.asks == 0 && s.parks == 0)
    && (forall t :: 0 <= t < |s.threads| && s.threads[t].spot == Signalling ==> s.phase == Invalid && s.initSignaled)
    && (s.phase == Invalid ==> forall t :: 0 <= t < |s.threads| ==> s.threads[t].spot == Away || s.threads[t].spot == Signalling)
    && (forall t, u :: 0 <= t < u < |s.threads| ==> s.threads[t].spot != Signalling || s.threads[u].spot != Signalling)
  }

  ghost predicate Increasing(claims: seq<Claim>) {
    forall i, j :: 0 <= i < j < |claims| ==> claims[i].request < claims[j].request
  }

  predicate Answers(ch: Channel) {
    |ch.claims| > 0 && ch.claims[|ch.claims| - 1].request == ch.issued
  }

  /** A channel: no request is taken twice; a taken one has its one server until it is
      answered; and it stays as it is until the agent has seen the answer. */
  ghost predicate ChannelInv(ch: Channel, k: Kind, threads: seq<Thread>, waiting: bool) {
    && Increasing(ch.claims)
    && (forall i :: 0 <= i < |ch.claims| ==> 1 <= ch.claims[i].request <= ch.issued && ch.claims[i].taker < |threads|)
    && (ch.req == 1 ==> waiting && !ch.done && !Answers(ch))
    && (ch.req == 2 && !waiting ==> ch.done)
    && (waiting ==> ch.issued >= 1 && (ch.req == 1 || (ch.req == 2 && Answers(ch))))
    && (ch.done ==> Answers(ch))
    && (ch.background ==> k.Base? && waiting && ch.req == 2 && !ch.done)
    && (forall t :: 0 <= t < |threads| && threads[t].job == Serving(k) ==>
          waiting && ch.req == 2 && !ch.done && !ch.background && Answers(ch) && ch.claims[|ch.claims| - 1].taker == t)
    && (waiting && ch.req == 2 && !ch.done && !ch.background ==>
          threads[ch.claims[|ch.claims| - 1].taker].job == Serving(k))
  }

  ghost predicate ClaimsInv(s: State) {
    && ChannelInv(s.base, Base, s.threads, s.agent.BaseWait?)
    && ChannelInv(s.delta, Delta, s.threads, s.agent.DeltaWait?)
  }

  /** Steps by which a thread moves to, from or at the boundary. */
  predicate Moves(step: Step) {
    || step.SignalInit? || step.WriteInit? || step.SeeReq? || step.Lock? || step.Decide? || step.Arrive? || step.Skip?
    || step.Release?
  }

  /** Steps by which threads look at, take and answer requests. */
  predicate Serves(step: Step) {
    step.SeeWork? || step.Take? || step.Finish? || step.FinishBackground?
  }

  predicate IsThreadStep(step: Step) {
    Moves(step) || Serves(step)
  }

  /** Serving requests moves nobody, and leaves the gate's phase and stop request alone. */
  ghost predicate SameSpots(s: State, s': State) {
    && |s'.threads| == |s.threads|
    && (forall t :: 0 <= t < |s.threads| ==> s'.threads[t].spot == s.threads[t].spot && s'.threads[t].owner == s.threads[t].owner)
    && s'.phase == s.phase && s'.ckptReq == s.ckptReq && s'.initSignaled == s.initSignaled && s'.mutex == s.mutex
    && s'.agent == s.agent && s'.aborted == s.aborted && s'.asks == s.asks && s'.parks == s.parks
  }

  lemma {:induction false} TakingMovesNobody(s: State, t: nat, background: bool)
    requires t < |s.threads| && s.threads[t].job.Saw?
    ensures SameSpots(s, Taken(s, t, background))
  {
  }

  lemma {:induction false} ServingMovesNobody(s: State, step: Step)
    requires CanStep(s, step) && Serves(step)
    ensures SameSpots(s, After(s, step))
  {
    hide Taken;
    if step.Take? {
      TakingMovesNobody(s, step.t, step.background);
    }
  }

  lemma {:induction false} MoveKeepsMutex(s: State, step: Step)
    requires MutexInv(s) && CanStep(s, step) && Moves(step)
    ensures MutexInv(After(s, step))
  {
  }

  lemma {:induction false} AgentMovesNobody(s: State, step: Step)
    requires CanStep(s, step) && !IsThreadStep(step)
    ensures After(s, step).threads == s.threads && After(s, step).mutex == s.mutex && After(s, step).initSignaled == s.initSignaled
    ensures After(s, step).parks == s.parks
  {
  }

  /** No step makes a thread an owner. */
  lemma {:induction false} OwnersKept(s: State, step: Step)
    requires CanStep(s, step)
    ensures var ts := After(s, step).threads; |ts| == |s.threads| && forall t :: 0 <= t < |ts| ==> ts[t].owner == s.threads[t].owner
  {
    if Serves(step) {
      ServingMovesNobody(s, step);
    } else if !Moves(step) {
      AgentMovesNobody(s, step);
    }
  }

  lemma {:induction false} StepKeepsMutex(s: State, step: Step)
    requires MutexInv(s) && CanStep(s, step)
    ensures MutexInv(After(s, step))
  {
    if Moves(step) {
      MoveKeepsMutex(s, step);
    } else if Serves(step) {
      ServingMovesNobody(s, step);
    } else {
      AgentMovesNobody(s, step);
    }
    hide CanStep, After, Moves, Serves;
  }

  lemma {:induction false} MoveKeepsInit(s: State, step: Step)
    requires InitInv(s) && CanStep(s, step) && Moves(step)
    ensures InitInv(After(s, step))
  {
  }

  lemma {:induction false} AgentKeepsInit(s: State, step: Step)
    requires InitInv(s) && CanStep(s, step) && !IsThreadStep(step)
    ensures InitInv(After(s, step))
  {
  }

  lemma {:induction false} StepKeepsInit(s: State, step: Step)
    requires InitInv(s) && CanStep(s, step)
    ensures InitInv(After(s, step))
  {
    if Moves(step) {
      MoveKeepsInit(s, step);
    } else if Serves(step) {
      ServingMovesNobody(s, step);
    } else {
      AgentKeepsInit(s, step);
    }
    hide CanStep, After, Moves, Serves;
  }

  // --------------------------------------------------------- request channels

  /** Threads differ only in what does not serve requests of kind `k`. */
  ghost predicate SameServers(threads: seq<Thread>, threads': seq<Thread>, k: Kind) {
    && |threads'| == |threads|
    && forall t :: 0 <= t < |threads| ==> (threads'[t].job == Serving(k) <==> threads[t].job == Serving(k))
  }

  lemma {:induction false} ChannelUntouched(ch: Channel, k: Kind, threads: seq<Thread>, threads': seq<Thread>, waiting: bool)
    requires ChannelInv(ch, k, threads, waiting) && SameServers(threads, threads', k)
    ensures ChannelInv(ch, k, threads', waiting)
  {
  }

  lemma {:induction false} TakeKeepsChannel(ch: Channel, k: Kind, threads: seq<Thread>, waiting: bool, t: nat, background: bool)
    requires ChannelInv(ch, k, threads, waiting) && ch.req == 1 && t < |threads| && threads[t].job == Saw(k) && (background ==> k.Base?)
    ensures ChannelInv(ch.(req := 2, background := background, claims := ch.claims + [Claim(ch.issued, t)]), k,
                       threads[t := threads[t].(job := if background then NoJob else Serving(k))], waiting)
  {
    assert forall i :: 0 <= i < |ch.claims| ==> ch.claims[i].request < ch.issued by {
      var n := |ch.claims| - 1;
      assert forall i :: 0 <= i < n ==> ch.claims[i].request < ch.claims[n].request;
    }
  }

  lemma {:induction false} SetServers(threads: seq<Thread>, t: nat, th: Thread, k: Kind)
    requires t < |threads| && (threads[t].job == Serving(k) <==> th.job == Serving(k))
    ensures SameServers(threads, threads[t := th], k)
  {
  }

  function WaitingOn(s: State, k: Kind): bool {
    if k.Base? then s.agent.BaseWait? else s.agent.DeltaWait?
  }

  function Other(k: Kind): Kind {
    if k.Base? then Delta else Base
  }

  /** A thread's step on requests of kind `k` leaves the other channel as it was. */
  lemma {:induction false} OtherKept(s: State, k: Kind, t: nat, th: Thread, s': State)
    requires ClaimsInv(s) && t < |s.threads| && s'.threads == s.threads[t := th] && s'.agent == s.agent
    requires s.threads[t].job != Serving(Other(k)) && th.job != Serving(Other(k))
    requires Chan(s', Other(k)) == Chan(s, Other(k))
    requires ChannelInv(Chan(s', k), k, s'.threads, WaitingOn(s, k))
    ensures ClaimsInv(s')
  {
    hide ChannelInv;
    SetServers(s.threads, t, th, Other(k));
    ChannelUntouched(Chan(s, Other(k)), Other(k), s.threads, s'.threads, WaitingOn(s, Other(k)));
  }

  lemma {:induction false} TakeKeepsClaims(s: State, t: nat, background: bool)
    requires ClaimsInv(s) && CanStep(s, Take(t, background))
    ensures ClaimsInv(After(s, Take(t, background)))
  {
    hide ChannelInv;
    var k, s' := s.threads[t].job.kind, Taken(s, t, background);
    var ch := Chan(s, k);
    if ch.req == 1 {
      TakeKeepsChannel(ch, k, s.threads, WaitingOn(s, k), t, background);
      OtherKept(s, k, t, s.threads[t].(job := if background then NoJob else Serving(k)), s');
    } else {
      SetServers(s.threads, t, s.threads[t].(job := NoJob), k);
      ChannelUntouched(ch, k, s.threads, s'.threads, WaitingOn(s, k));
      OtherKept(s, k, t, s.threads[t].(job := NoJob), s');
    }
    hide ClaimsInv, SameServers;
  }

  lemma {:induction false} AnswerKeepsChannel(ch: Channel, k: Kind, threads: seq<Thread>, waiting: bool, t: nat, ok: bool)
    requires ChannelInv(ch, k, threads, waiting) && t < |threads| && threads[t].job == Serving(k)
    ensures ChannelInv(Answered(ch, ok), k, threads[t := threads[t].(job := NoJob)], waiting)
  {
  }

  lemma {:induction false} FinishKeepsClaims(s: State, t: nat, ok: bool)
    requires ClaimsInv(s) && CanStep(s, Finish(t, ok))
    ensures ClaimsInv(After(s, Finish(t, ok)))
  {
    hide ChannelInv;
    var k, s' := s.threads[t].job.kind, After(s, Finish(t, ok));
    AnswerKeepsChannel(Chan(s, k), k, s.threads, WaitingOn(s, k), t, ok);
    OtherKept(s, k, t, s.threads[t].(job := NoJob), s');
    hide ClaimsInv;
  }

  lemma {:induction false} AskKeepsChannel(ch: Channel, k: Kind, threads: seq<Thread>)
    requires ChannelInv(ch, k, threads, false)
    ensures ChannelInv(Issued(ch), k, threads, true)
    ensures ChannelInv(Reset(ch), k, threads, false)
    ensures ChannelInv(ch.(req := 0), k, threads, false)
  {
  }

  lemma {:induction false} SeenKeepsChannel(ch: Channel, k: Kind, threads: seq<Thread>)
    requires ChannelInv(ch, k, threads, true) && ch.done
    ensures ChannelInv(ch, k, threads, false)
  {
  }

  lemma {:induction false} AgentKeepsClaims(s: State, step: Step)
    requires ClaimsInv(s) && CanStep(s, step) && !IsThreadStep(step)
    ensures ClaimsInv(After(s, step))
  {
    hide ChannelInv;
    if !s.agent.BaseWait? {
      AskKeepsChannel(s.base, Base, s.threads);
    } else {
      SeenKeepsChannel(s.base, Base, s.threads);
    }
    if !s.agent.DeltaWait? {
      AskKeepsChannel(s.delta, Delta, s.threads);
    } else {
      SeenKeepsChannel(s.delta, Delta, s.threads);
    }
  }

  lemma {:induction false} MoveKeepsClaims(s: State, step: Step)
    requires ClaimsInv(s) && CanStep(s, step) && (Moves(step) || step.SeeWork?)
    ensures ClaimsInv(After(s, step))
  {
    hide ChannelInv;
    var s' := After(s, step);
    SetServers(s.threads, step.t, s'.threads[step.t], Base);
    SetServers(s.threads, step.t, s'.threads[step.t], Delta);
    hide SameServers;
    ChannelUntouched(s.base, Base, s.threads, s'.threads, s.agent.BaseWait?);
    ChannelUntouched(s.delta, Delta, s.threads, s'.threads, s.agent.DeltaWait?);
  }

  lemma {:induction false} StepKeepsClaims(s: State, step: Step)
    requires ClaimsInv(s) && CanStep(s, step)
    ensures ClaimsInv(After(s, step))
  {
    match step {
      case Take(t, background) => TakeKeepsClaims(s, t, background);
      case Finish(t, ok) => FinishKeepsClaims(s, t, ok);
      case FinishBackground(ok) =>
      case _ =>
        if Moves(step) || step.SeeWork? {
          MoveKeepsClaims(s, step);
        } else {
          AgentKeepsClaims(s, step);
        }
    }
  }

  ghost predicate BasicInv(s: State) {
    MutexInv(s) && InitInv(s) && StopInv(s) && JobInv(s) && ClaimsInv(s)
  }

  lemma {:induction false} MoveKeepsJobs(s: State, step: Step)
    requires JobInv(s) && CanStep(s, step) && Moves(step)
    ensures JobInv(After(s, step))
  {
  }

  lemma {:induction false} ServeKeepsJobs(s: State, step: Step)
    requires JobInv(s) && CanStep(s, step) && Serves(step)
    ensures JobInv(After(s, step))
  {
    ServingMovesNobody(s, step);
    hide Chan;
  }

  lemma {:induction false} StepKeepsJobs(s: State, step: Step)
    requires JobInv(s) && CanStep(s, step)
    ensures JobInv(After(s, step))
  {
    if Moves(step) {
      MoveKeepsJobs(s, step);
    } else if Serves(step) {
      ServeKeepsJobs(s, step);
    } else {
      AgentMovesNobody(s, step);
    }
    hide CanStep, After, Moves, Serves;
  }

  lemma {:induction false} MoveKeepsStop(s: State, step: Step)
    requires StopInv(s) && MutexInv(s) && InitInv(s) && CanStep(s, step) && Moves(step)
    ensures StopInv(After(s, step))
  {
  }

  lemma {:induction false} AgentKeepsStop(s: State, step: Step)
    requires StopInv(s) && CanStep(s, step) && !IsThreadStep(step)
    ensures StopInv(After(s, step))
  {
  }

  lemma {:induction false} StepKeepsStop(s: State, step: Step)
    requires StopInv(s) && MutexInv(s) && InitInv(s) && CanStep(s, step)
    ensures StopInv(After(s, step))
  {
    if Moves(step) {
      MoveKeepsStop(s, step);
    } else if Serves(step) {
      ServingMovesNobody(s, step);
    } else {
      AgentKeepsStop(s, step);
    }
    hide CanStep, After, Moves, Serves, MutexInv, InitInv;
  }

  lemma {:induction false} StepKeepsBasic(s: State, step: Step)
    requires BasicInv(s) && CanStep(s, step)
    ensures BasicInv(After(s, step))
  {
    StepKeepsMutex(s, step);
    StepKeepsInit(s, step);
    StepKeepsStop(s, step);
    StepKeepsJobs(s, step);
    StepKeepsClaims(s, step);
    hide MutexInv, InitInv, StopInv, JobInv, ClaimsInv;
  }

  // ---------------------------------------------------- the clear-first order

  /** What the agent's position says about the boundary when ckpt_req is always cleared
      before Resume is written: between requests nobody can stop, and a stop request
      has been met exactly when the gate shows AtBoundary. */
  ghost predicate BoundaryInv(s: State) {
    && !s.agent.LateResumed?
    && (s.ckptReq <==> s.agent.Asked? || s.agent.Stopped? || s.agent.DeltaWait? || s.aborted)
    && (s.aborted ==> s.agent.Idle? && s.phase == AtBoundary)
    && (s.phase == AtBoundary ==> s.agent.Asked? || s.agent.Stopped? || s.agent.DeltaWait? || s.agent.Cleared? || s.aborted)
    && (forall t :: 0 <= t < |s.threads| && s.threads[t].spot == Arriving ==> s.agent.Asked? && s.phase != AtBoundary)
    && (forall t :: 0 <= t < |s.threads| && s.threads[t].spot == Parked ==> s.phase == AtBoundary || s.phase == Resume)
    && s.asks == s.parks + if s.agent.Asked? && s.phase != AtBoundary then 1 else 0
  }

  ghost predicate Inv(s: State) {
    BasicInv(s) && BoundaryInv(s)
  }

  lemma {:induction false} MoveKeepsBoundary(s: State, step: Step)
    requires BoundaryInv(s) && MutexInv(s) && InitInv(s) && StopInv(s) && CanStep(s, step) && Moves(step)
    ensures BoundaryInv(After(s, step))
  {
  }

  lemma {:induction false} AgentKeepsBoundary(s: State, step: Step)
    requires BoundaryInv(s) && StopInv(s) && CanStep(s, step) && !IsThreadStep(step) && !step.ResumeFirst?
    ensures BoundaryInv(After(s, step))
  {
  }

  lemma {:induction false} StepKeepsBoundary(s: State, step: Step)
    requires BoundaryInv(s) && MutexInv(s) && InitInv(s) && StopInv(s) && CanStep(s, step) && !step.ResumeFirst?
    ensures BoundaryInv(After(s, step))
  {
    if Moves(step) {
      MoveKeepsBoundary(s, step);
    } else if Serves(step) {
      ServingMovesNobody(s, step);
    } else {
      AgentKeepsBoundary(s, step);
    }
    hide CanStep, After, Moves, Serves, MutexInv, InitInv;
  }

  lemma {:induction false} StepKeepsInv(s: State, step: Step)
    requires Inv(s) && CanStep(s, step) && !step.ResumeFirst?
    ensures Inv(After(s, step))
  {
    StepKeepsBasic(s, step);
    StepKeepsBoundary(s, step);
  }

  ghost predicate ClearsFirst(steps: seq<Step>) {
    forall i :: 0 <= i < |steps| ==> !steps[i].ResumeFirst?
  }

  lemma {:induction false} RunKeepsBasic(s: State, steps: seq<Step>, s': State)
    requires BasicInv(s) && Leads(s, steps, s')
    ensures BasicInv(s')
    decreases |steps|
  {
    if steps != [] {
      StepKeepsBasic(s, steps[0]);
      RunKeepsBasic(After(s, steps[0]), steps[1..], s');
    }
  }

  lemma {:induction false} RunKeepsInv(s: State, steps: seq<Step>, s': State)
    requires Inv(s) && Leads(s, steps, s') && ClearsFirst(steps)
    ensures Inv(s')
    decreases |steps|
  {
    if steps != [] {
      StepKeepsInv(s, steps[0]);
      RunKeepsInv(After(s, steps[0]), steps[1..], s');
    }
  }

  lemma {:induction false} FreshInv(s: State)
    requires Fresh(s)
    ensures Inv(s)
  {
  }

  /** Over any run, with any number of agents, processes and threads: at most one arrival
      per stop request, exactly one by the time the agent has seen the boundary, and none
      outside a request. */
  lemma {:induction false} ParksOncePerRequest(s: State, steps: seq<Step>, s': State)
    requires Fresh(s) && Leads(s, steps, s') && ClearsFirst(steps)
    ensures s'.parks <= s'.asks <= s'.parks + 1
    ensures !s'.agent.Asked? ==> s'.parks == s'.asks
    ensures s'.phase == AtBoundary ==> s'.parks == s'.asks
  {
    FreshInv(s);
    RunKeepsInv(s, steps, s');
    hide ClaimsInv, MutexInv, InitInv, Leads, Fresh;
  }

  /** While a delta is being copied the application is stopped at the boundary, whichever
      thread or process took the request and in whatever order the agent will release it. */
  lemma {:induction false} DeltaServedWhileStopped(s: State, steps: seq<Step>, s': State, t: nat)
    requires Fresh(s) && Leads(s, steps, s')
    requires Doing(s', t, Serving(Delta))
    ensures s'.phase == AtBoundary && s'.mutex.Some? && At(s', s'.mutex.value, Parked)
    ensures forall u :: !CanStep(s', Release(u))
  {
    FreshInv(s);
    RunKeepsBasic(s, steps, s');
    hide MutexInv, InitInv, Leads, Fresh;
  }

  /** Thread `t` is in the wait loop of a gate that shows Resume, with no delta to find. */
  ghost predicate Leaving(s: State, t: nat) {
    && BasicInv(s) && At(s, t, Parked) && s.phase == Resume && s.delta.req != 1
    && (s.threads[t].job.NoJob? || s.threads[t].job.Saw?)
  }

  /** Steps thread `t` still has to take. */
  function StepsOut(s: State, t: nat): nat
    requires t < |s.threads|
  {
    if s.threads[t].job.NoJob? then 1 else 2
  }

  predicate TakesStep(step: Step, t: nat) {
    match step
    case SignalInit(u) => u == t
    case WriteInit(u) => u == t
    case SeeReq(u) => u == t
    case Lock(u) => u == t
    case Decide(u) => u == t
    case Arrive(u) => u == t
    case Skip(u) => u == t
    case Release(u) => u == t
    case SeeWork(u, _) => u == t
    case Take(u, _) => u == t
    case Finish(u, _) => u == t
    case _ => false
  }

  /** Nothing that other threads or agents do, new requests included, keeps it from
      leaving: it leaves with its next step or the one after. */
  lemma {:induction false} LeavesInTwo(s: State, t: nat, step: Step)
    requires Leaving(s, t) && CanStep(s, step)
    ensures var s' := After(s, step);
            || (step == Release(t) && At(s', t, Away))
            || (Leaving(s', t) && StepsOut(s', t) <= StepsOut(s, t) && (TakesStep(step, t) ==> StepsOut(s', t) < StepsOut(s, t)))
    ensures CanStep(s, if s.threads[t].job.NoJob? then Release(t) else Take(t, false))
  {
    StepKeepsBasic(s, step);
    LeavingStep(s, t, step);
    hide BasicInv, After;
  }

  lemma {:induction false} LeavingStep(s: State, t: nat, step: Step)
    requires Leaving(s, t) && CanStep(s, step)
    ensures var s' := After(s, step);
            || (step == Release(t) && At(s', t, Away))
            || (&& At(s', t, Parked) && s'.phase == Resume && s'.delta.req != 1
                && (s'.threads[t].job.NoJob? || s'.threads[t].job.Saw?)
                && StepsOut(s', t) <= StepsOut(s, t) && (TakesStep(step, t) ==> StepsOut(s', t) < StepsOut(s, t)))
  {
    hide ClaimsInv;
    assert s.mutex == Some(t);
    assert s.threads[t].job.Saw? ==> s.threads[t].job.kind.Delta?;
    if step.Take? {
      TakingMovesNobody(s, step.t, step.background);
    }
  }

  /** Once a round is over, whoever is still in the wait loop is leaving it. */
  lemma {:induction false} ReleasedAfterRound(s: State, steps: seq<Step>, s': State, t: nat)
    requires Fresh(s) && Leads(s, steps, s') && ClearsFirst(steps)
    requires s'.agent.Idle? && !s'.aborted && At(s', t, Parked)
    ensures Leaving(s', t)
  {
    FreshInv(s);
    RunKeepsInv(s, steps, s');
    forall k: Kind ensures s'.threads[t].job != Serving(k) && Chan(s', k).req != 1 {
      assert k == Base || k == Delta;
    }
    hide Leads, Fresh, InitInv;
  }

  /** With no agent attached, nobody can be on the way to the boundary. */
  lemma {:induction false} NoStopWithoutRequest(s: State, steps: seq<Step>, s': State, t: nat)
    requires Fresh(s) && Leads(s, steps, s') && ClearsFirst(steps)
    requires s'.agent.Idle? && !s'.aborted
    ensures !CanStep(s', SeeReq(t)) && !CanStep(s', Decide(t)) && !CanStep(s', Arrive(t))
  {
    FreshInv(s);
    RunKeepsInv(s, steps, s');
    hide Leads, Fresh, InitInv, MutexInv, ClaimsInv;
  }

  /** Every request is taken at most once, in any order of the agent's writes; and when
      the agent sees the answer, it has been taken exactly once. */
  lemma {:induction false} TakenOnce(s: State, steps: seq<Step>, s': State, k: Kind, i: nat, j: nat)
    requires Fresh(s) && Leads(s, steps, s')
    requires i < |Chan(s', k).claims| && j < |Chan(s', k).claims| && Chan(s', k).claims[i].request == Chan(s', k).claims[j].request
    ensures i == j
  {
    FreshInv(s);
    RunKeepsBasic(s, steps, s');
    hide MutexInv, InitInv, Leads, Fresh;
  }

  lemma {:induction false} AnsweredIsTaken(s: State, steps: seq<Step>, s': State, k: Kind)
    requires Fresh(s) && Leads(s, steps, s') && Chan(s', k).done
    ensures Answers(Chan(s', k))
    ensures forall t :: !Doing(s', t, Serving(k))
  {
    FreshInv(s);
    RunKeepsBasic(s, steps, s');
    hide MutexInv, InitInv, Leads, Fresh;
  }

  // ------------------------------------------------- stopped with nobody to resume

  /** Parked, no agent attached, and the gate not in a state an agent attaches to. */
  ghost predicate Stranded(s: State, t: nat) {
    MutexInv(s) && InitInv(s) && s.phase == AtBoundary && s.agent.Idle? && s.mutex == Some(t) && At(s, t, Parked)
  }

  lemma {:induction false} StrandedPut(s: State, t: nat, step: Step)
    requires Stranded(s, t) && CanStep(s, step)
    ensures var s' := After(s, step); s'.phase == AtBoundary && s'.agent.Idle? && s'.mutex == Some(t) && At(s', t, Parked)
  {
  }

  lemma {:induction false} StrandedStays(s: State, t: nat, step: Step)
    requires Stranded(s, t) && CanStep(s, step)
    ensures Stranded(After(s, step), t)
  {
    StepKeepsMutex(s, step);
    StepKeepsInit(s, step);
    StrandedPut(s, t, step);
    hide MutexInv, InitInv, CanStep, After;
  }

  /** No continuation, by any thread or any later agent, ever lets it go. */
  lemma {:induction false} StrandedForever(s: State, t: nat, steps: seq<Step>, s': State)
    requires Stranded(s, t) && Leads(s, steps, s')
    ensures Stranded(s', t)
    decreases |steps|
  {
    if steps != [] {
      StrandedStays(s, t, steps[0]);
      StrandedForever(After(s, steps[0]), t, steps[1..], s');
    }
  }

  /** With ckpt_req cleared first, an idle agent leaves someone stranded exactly when it
      gave up after the application had stopped. */
  lemma {:induction false} StrandedIffAborted(s: State, steps: seq<Step>, s': State)
    requires Fresh(s) && Leads(s, steps, s') && ClearsFirst(steps) && s'.agent.Idle?
    ensures (exists t :: Stranded(s', t)) <==> s'.aborted
  {
    FreshInv(s);
    RunKeepsInv(s, steps, s');
    hide Leads, Fresh, ClaimsInv;
    if s'.aborted {
      assert Stranded(s', s'.mutex.value);
    }
  }

  // ---------------------------------------------------- the resume-first order

  /** Someone is at the boundary again, or past the last test before it. */
  ghost predicate Caught(s: State) {
    s.mutex.Some? && (At(s, s.mutex.value, Arriving) || (At(s, s.mutex.value, Parked) && s.phase == AtBoundary))
  }

  /** The gate between the two writes of the resume-first order. */
  ghost predicate Window(s: State) {
    && MutexInv(s) && InitInv(s) && s.agent.LateResumed?
    && (Caught(s) || s.phase == Resume)
  }

  lemma {:induction false} WindowMove(s: State, step: Step)
    requires Window(s) && CanStep(s, step) && Moves(step)
    ensures Caught(After(s, step)) <==> Caught(s) || step.Decide?
    ensures After(s, step).agent == s.agent && (Caught(After(s, step)) || After(s, step).phase == Resume)
  {
  }

  lemma {:induction false} WindowStep(s: State, step: Step)
    requires Window(s) && CanStep(s, step) && IsThreadStep(step)
    ensures Window(After(s, step))
    ensures Caught(After(s, step)) <==> Caught(s) || step.Decide?
  {
    StepKeepsMutex(s, step);
    StepKeepsInit(s, step);
    if Serves(step) {
      ServingMovesNobody(s, step);
    } else {
      WindowMove(s, step);
    }
    hide MutexInv, InitInv, CanStep, After, Moves, Serves;
  }

  lemma {:induction false} CaughtIff(s: State, w: seq<Step>, s': State)
    requires Window(s) && Leads(s, w, s') && forall i :: 0 <= i < |w| ==> IsThreadStep(w[i])
    ensures Window(s')
    ensures Caught(s') <==> Caught(s) || exists i :: 0 <= i < |w| && w[i].Decide?
    decreases |w|
  {
    if w != [] {
      WindowStep(s, w[0]);
      CaughtIff(After(s, w[0]), w[1..], s');
      assert forall i :: 0 <= i < |w| && w[i].Decide? ==> i == 0 || w[1..][i - 1].Decide?;
    }
  }

  /** A round that wrote Resume first is over: ckpt_req is clear and no agent has attached
      since; thread steps and the end of the round lead nowhere else. */
  ghost predicate LateOver(s: State) {
    MutexInv(s) && InitInv(s) && !s.ckptReq && (s.agent.Resumed? || s.agent.Idle?) && (Caught(s) || s.phase == Resume)
  }

  predicate ThreadOrEnd(step: Step) {
    IsThreadStep(step) || step.EndRound?
  }

  lemma {:induction false} OverMove(s: State, step: Step)
    requires LateOver(s) && CanStep(s, step) && Moves(step)
    ensures var s' := After(s, step);
            (Caught(s') <==> Caught(s)) && !s'.ckptReq && s'.agent == s.agent && (Caught(s') || s'.phase == Resume)
  {
  }

  lemma {:induction false} OverStep(s: State, step: Step)
    requires LateOver(s) && CanStep(s, step) && ThreadOrEnd(step)
    ensures LateOver(After(s, step)) && (Caught(After(s, step)) <==> Caught(s))
  {
    StepKeepsMutex(s, step);
    StepKeepsInit(s, step);
    if Serves(step) {
      ServingMovesNobody(s, step);
    } else if Moves(step) {
      OverMove(s, step);
    }
    hide MutexInv, InitInv, Moves, Serves;
  }

  lemma {:induction false} OverRun(s: State, w: seq<Step>, s': State)
    requires LateOver(s) && Leads(s, w, s') && forall i :: 0 <= i < |w| ==> ThreadOrEnd(w[i])
    ensures LateOver(s') && (Caught(s') <==> Caught(s))
    decreases |w|
  {
    if w != [] {
      OverStep(s, w[0]);
      OverRun(After(s, w[0]), w[1..], s');
    }
  }

  /** Resume written before ckpt_req is cleared: let threads take the steps `w` between the
      two writes and `rest` afterwards. With the round over, no new agent attached and no
      thread between its test and its arrival, someone is stranded for good exactly when
      a thread tested ckpt_req under the mutex between the two writes. */
  lemma {:induction false} LateClearIff(s: State, w: seq<Step>, s': State, rest: seq<Step>, s'': State)
    requires BasicInv(s) && CanStep(s, ResumeFirst)
    requires Leads(After(s, ResumeFirst), w, s') && forall i :: 0 <= i < |w| ==> IsThreadStep(w[i])
    requires CanStep(s', ClearAfter) && Leads(After(s', ClearAfter), rest, s'')
    requires forall i :: 0 <= i < |rest| ==> ThreadOrEnd(rest[i])
    requires s''.agent.Idle? && forall t :: 0 <= t < |s''.threads| ==> s''.threads[t].spot != Arriving
    ensures (exists t :: Stranded(s'', t)) <==> exists i :: 0 <= i < |w| && w[i].Decide?
  {
    WindowOpens(s);
    CaughtIff(After(s, ResumeFirst), w, s');
    WindowCloses(s');
    hide Window, LateOver, Caught, Leads, BasicInv, After, CanStep, Stranded;
    OverRun(After(s', ClearAfter), rest, s'');
    CaughtIsStranded(s'');
  }

  lemma {:induction false} WindowOpens(s: State)
    requires BasicInv(s) && CanStep(s, ResumeFirst)
    ensures Window(After(s, ResumeFirst)) && !Caught(After(s, ResumeFirst))
  {
    hide ClaimsInv, JobInv;
    StepKeepsMutex(s, ResumeFirst);
    StepKeepsInit(s, ResumeFirst);
    hide InitInv, MutexInv;
  }

  lemma {:induction false} WindowCloses(s: State)
    requires Window(s) && CanStep(s, ClearAfter)
    ensures LateOver(After(s, ClearAfter)) && (Caught(After(s, ClearAfter)) <==> Caught(s))
  {
    StepKeepsMutex(s, ClearAfter);
    StepKeepsInit(s, ClearAfter);
    hide InitInv, MutexInv;
  }

  lemma {:induction false} CaughtIsStranded(s: State)
    requires LateOver(s) && s.agent.Idle? && forall t :: 0 <= t < |s.threads| ==> s.threads[t].spot != Arriving
    ensures (exists t :: Stranded(s, t)) <==> Caught(s)
  {
    if Caught(s) {
      assert Stranded(s, s.mutex.value);
    }
    hide MutexInv, InitInv;
  }

  lemma {:induction false} Prepend(s: State, step: Step, rest: seq<Step>, s': State)
    requires CanStep(s, step) && Leads(After(s, step), rest, s')
    ensures Leads(s, [step] + rest, s')
  {
    assert ([step] + rest)[1..] == rest;
  }

  /** One thread, just created, with a fresh gate. */
  function OneThread(): State {
    var none := Channel(0, false, false, false, 0, []);
    State(Invalid, false, none, none, false, None, [Thread(true, Away, NoJob)], Idle, false, 0, 0)
  }

  /** One thread stopped at the boundary by the first agent. */
  function FirstStop(): State {
    OneThread().(phase := AtBoundary, ckptReq := true, initSignaled := true, mutex := Some(0),
                 threads := [Thread(true, Parked, NoJob)], agent := Stopped, asks := 1, parks := 1)
  }

  lemma {:induction false} Chain(s: State, steps: seq<Step>, s': State, more: seq<Step>, s'': State)
    requires Leads(s, steps, s') && Leads(s', more, s'')
    ensures Leads(s, steps + more, s'')
    decreases |steps|
  {
    if steps == [] {
      assert steps + more == more;
    } else {
      Chain(After(s, steps[0]), steps[1..], s', more, s'');
      assert (steps + more)[1..] == steps[1..] + more;
    }
  }

  function WalkedIn(s: State, t: nat): State
    requires t < |s.threads|
  {
    Set(s, t, s.threads[t].(spot := Parked)).(mutex := Some(t), phase := AtBoundary, parks := s.parks + 1)
  }

  /** An owner thread with nothing to do walks to the boundary when asked to. */
  lemma {:induction false} WalksIn(s: State, t: nat) returns (steps: seq<Step>)
    requires At(s, t, Away) && Doing(s, t, NoJob) && s.threads[t].owner && s.ckptReq && s.mutex.None?
    ensures Leads(s, steps, WalkedIn(s, t))
    ensures ClearsFirst(steps)
  {
    var s1 := After(s, SeeReq(t));
    var s2 := After(s1, Lock(t));
    var s3 := After(s2, Decide(t));
    var s4 := After(s3, Arrive(t));
    assert s4.threads == s.threads[t := s.threads[t].(spot := Parked)];
    Prepend(s3, Arrive(t), [], s4);
    Prepend(s2, Decide(t), [Arrive(t)], s4);
    Prepend(s1, Lock(t), [Decide(t)] + [Arrive(t)], s4);
    steps := [Lock(t)] + ([Decide(t)] + [Arrive(t)]);
    Prepend(s, SeeReq(t), steps, s4);
    steps := [SeeReq(t)] + steps;
  }

  lemma {:induction false} FirstStopReached() returns (steps: seq<Step>)
    ensures Fresh(OneThread()) && Leads(OneThread(), steps, FirstStop()) && ClearsFirst(steps)
  {
    var s0 := OneThread();
    var s1 := After(s0, SignalInit(0));
    var s2 := After(s1, WriteInit(0));
    var s3 := After(s2, Start);
    var s4 := After(s3, Ask);
    var walk := WalksIn(s4, 0);
    var s5 := FirstStop().(agent := Asked);
    assert WalkedIn(s4, 0).threads == s5.threads;
    Prepend(s5, SeeBoundary, [], FirstStop());
    Chain(s4, walk, s5, [SeeBoundary], FirstStop());
    steps := walk + [SeeBoundary];
    Prepend(s3, Ask, steps, FirstStop());
    steps := [Ask] + steps;
    Prepend(s2, Start, steps, FirstStop());
    steps := [Start] + steps;
    Prepend(s1, WriteInit(0), steps, FirstStop());
    steps := [WriteInit(0)] + steps;
    Prepend(s0, SignalInit(0), steps, FirstStop());
    steps := [SignalInit(0)] + steps;
  }

  /** The gate of that thread after a round that ended with it at the boundary again. */
  function SecondStop(): State {
    FirstStop().(ckptReq := false, agent := Idle, parks := 2)
  }

  lemma {:induction false} SecondStopReached() returns (steps: seq<Step>)
    ensures Leads(FirstStop(), steps, SecondStop())
  {
    var s0 := FirstStop();
    var s1 := After(s0, ResumeFirst);
    var s2 := After(s1, Release(0));
    var walk := WalksIn(s2, 0);
    var s3 := s1.(phase := AtBoundary, parks := 2);
    assert WalkedIn(s2, 0).threads == s3.threads;
    var s4 := After(s3, ClearAfter);
    Prepend(s4, EndRound, [], SecondStop());
    Prepend(s3, ClearAfter, [EndRound], SecondStop());
    Chain(s2, walk, s3, [ClearAfter] + [EndRound], SecondStop());
    steps := walk + ([ClearAfter] + [EndRound]);
    Prepend(s1, Release(0), steps, SecondStop());
    steps := [Release(0)] + steps;
    Prepend(s0, ResumeFirst, steps, SecondStop());
    steps := [ResumeFirst] + steps;
  }

  /** The resume-first order loses even a single-threaded application: the round ends
      without error, one request has been met twice, and nobody can resume the thread. */
  lemma {:induction false} ResumeFirstStrands() returns (steps: seq<Step>, s': State)
    ensures Fresh(OneThread()) && Leads(OneThread(), steps, s')
    ensures s'.agent.Idle? && !s'.aborted && s'.asks == 1 && s'.parks == 2 && Stranded(s', 0)
  {
    var first := FirstStopReached();
    var second := SecondStopReached();
    s' := SecondStop();
    Chain(OneThread(), first, FirstStop(), second, s');
    steps := first + second;
    hide Leads;
  }
}
