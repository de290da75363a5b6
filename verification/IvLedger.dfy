/** IV counters over the life of a process: every baseline and delta run reserves the next
    counters under the key lock and seals its chunks under its own, in any interleaving of
    runs and their threads and with any failures. */
module IvLedger {
  import opened Bytes
  import opened PageCrypto
  import V4 = V4Pipeline

  datatype Run = Run(cfg: V4.Config, pipe: V4.Pipe)

  /** `ivBase` is the next free counter. */
  datatype Ledger = Ledger(ivBase: nat, runs: seq<Run>)

  datatype Event =
    | Reserve(run: Run)               // a run begins, its counters taken under the lock
    | Work(r: nat, step: V4.Step)     // its launcher, the device or one of its workers

  ghost predicate CanStep(l: Ledger, e: Event) {
    match e
    case Reserve(run) => run.cfg.Valid() && run.cfg.base == l.ivBase && V4.Init(run.cfg, run.pipe)
    case Work(r, step) => r < |l.runs| && V4.CanStep(l.runs[r].cfg, l.runs[r].pipe, step)
  }

  ghost function After(l: Ledger, e: Event): Ledger
    requires CanStep(l, e)
  {
    match e
    case Reserve(run) => Ledger(l.ivBase + V4.Reserved(run.cfg), l.runs + [run])
    case Work(r, step) =>
      l.(runs := l.runs[r := l.runs[r].(pipe := V4.After(l.runs[r].cfg, l.runs[r].pipe, step))])
  }

  function End(r: Run): nat { r.cfg.base + V4.Reserved(r.cfg) }

  /** Every run is in order, and its reservation lies before those of later runs. */
  ghost predicate Inv(l: Ledger) {
    && (forall r :: 0 <= r < |l.runs| ==> V4.Inv(l.runs[r].cfg, l.runs[r].pipe) && End(l.runs[r]) <= l.ivBase)
    && (forall q, r :: 0 <= q < r < |l.runs| ==> End(l.runs[q]) <= l.runs[r].cfg.base)
  }

  lemma {:induction false} StepKeepsInv(l: Ledger, e: Event)
    requires Inv(l) && CanStep(l, e)
    ensures Inv(After(l, e))
  {
    hide V4.Inv, V4.Init, V4.CanStep, V4.After, V4.Reserved, V4.Config.Valid;
    match e {
      case Reserve(run) => V4.InitInv(run.cfg, run.pipe);
      case Work(r, step) => V4.StepKeepsInv(l.runs[r].cfg, l.runs[r].pipe, step);
    }
  }

  /** The `i`th encryption that run `r` started. */
  predicate Started(l: Ledger, r: nat, i: nat) {
    r < |l.runs| && i < |l.runs[r].pipe.used| && l.runs[r].pipe.used[i].0 < |l.runs[r].cfg.items|
  }

  ghost predicate Next(l: Ledger, l': Ledger) {
    exists e :: CanStep(l, e) && l' == After(l, e)
  }

  ghost predicate History(trace: seq<Ledger>) {
    trace != [] && trace[0] == Ledger(0, []) && forall n :: 0 < n < |trace| ==> Next(trace[n - 1], trace[n])
  }

  /** In every reachable state reservations are disjoint and below the next free counter,
      and whatever a run has encrypted is a chunk of its items. */
  lemma {:induction false} HistoryKeepsInv(trace: seq<Ledger>, n: nat)
    requires History(trace) && n < |trace|
    ensures Inv(trace[n])
    ensures forall r, i :: 0 <= r < |trace[n].runs| && 0 <= i < |trace[n].runs[r].pipe.used| ==> Started(trace[n], r, i)
  {
    if n > 0 {
      HistoryKeepsInv(trace, n - 1);
      hide Inv;
      assert Next(trace[n - 1], trace[n]);
      var e :| CanStep(trace[n - 1], e) && trace[n] == After(trace[n - 1], e);
      StepKeepsInv(trace[n - 1], e);
    }
    UsedStarted(trace[n]);
  }

  lemma {:induction false} UsedStarted(l: Ledger)
    requires Inv(l)
    ensures forall r, i :: 0 <= r < |l.runs| && 0 <= i < |l.runs[r].pipe.used| ==> Started(l, r, i)
  {
    hide V4.Inv;
    forall r, i | 0 <= r < |l.runs| && 0 <= i < |l.runs[r].pipe.used| ensures Started(l, r, i) {
      V4.CountersOnce(l.runs[r].cfg, l.runs[r].pipe, i, i);
    }
  }

  function CounterAt(l: Ledger, r: nat, i: nat): nat
    requires Started(l, r, i)
  {
    V4.CounterOf(l.runs[r].cfg, l.runs[r].pipe.used[i])
  }

  /** Counters of two encryptions, of one run or of two, differ. */
  lemma {:induction false} CountersUnique(l: Ledger, r: nat, i: nat, s: nat, j: nat)
    requires Inv(l) && Started(l, r, i) && Started(l, s, j) && (r, i) != (s, j)
    ensures CounterAt(l, r, i) != CounterAt(l, s, j)
    ensures CounterAt(l, r, i) < l.ivBase && CounterAt(l, s, j) < l.ivBase
  {
    hide V4.Inv, V4.CounterOf, V4.Reserved;
    V4.CountersOnce(l.runs[r].cfg, l.runs[r].pipe, i, if r == s then j else i);
    V4.CountersOnce(l.runs[s].cfg, l.runs[s].pipe, j, j);
  }

  /** No two chunk encryptions that the workers of a process start share an IV under its
      one key, as long as the counter stays below 2^64. */
  lemma {:induction false} NoIvReused(trace: seq<Ledger>, n: nat, r: nat, i: nat, s: nat, j: nat)
    requires History(trace) && n < |trace| && U64(trace[n].ivBase)
    requires Started(trace[n], r, i) && Started(trace[n], s, j) && (r, i) != (s, j)
    ensures BuildIv(CounterAt(trace[n], r, i)) != BuildIv(CounterAt(trace[n], s, j))
  {
    HistoryKeepsInv(trace, n);
    CountersUnique(trace[n], r, i, s, j);
    var a, b := CounterAt(trace[n], r, i), CounterAt(trace[n], s, j);
    hide Inv, CounterAt, Started;
    if BuildIv(a) == BuildIv(b) {
      BuildIvInjective(a, b);
    }
  }
}
