/** The two-slot producer/consumer pipeline both emulators copy through: while the
    producer fills one staging buffer, the consumer drains the other. */
module PingPong {

  datatype Consumer = Waiting | Reading | Written | Exited

  /** `out` lists what the consumer wrote back, `handed` what the producer handed over. */
  datatype Pipe<T> = Pipe(
    ready: seq<bool>, buf: seq<T>,
    produced: nat, filling: bool, done: bool, handed: seq<T>,
    consumed: nat, consumer: Consumer, out: seq<T>)

  datatype Step<T> =
    | Begin            // producer: the slot is free, start copying into it
    | Fill(content: T) // producer: the copy progresses
    | HandOff          // producer: publish the slot
    | Finish           // producer: no more jobs, or a failed copy
    | Take             // consumer: the slot is ready
    | WriteBack        // consumer: encrypt and write to the image
    | Release          // consumer: give the slot back
    | Exit             // consumer: nothing ready and the producer is done

  function Init<T>(zero: T): Pipe<T> {
    Pipe([false, false], [zero, zero], 0, false, false, [], 0, Waiting, [])
  }

  ghost predicate Enabled<T>(p: Pipe<T>, n: nat, s: Step<T>)
    requires |p.ready| == 2 && |p.buf| == 2
  {
    match s
    case Begin => !p.filling && !p.done && p.produced < n && !p.ready[p.produced % 2]
    case Fill(_) => p.filling
    case HandOff => p.filling
    case Finish => !p.filling && !p.done
    case Take => p.consumer.Waiting? && p.ready[p.consumed % 2]
    case WriteBack => p.consumer.Reading?
    case Release => p.consumer.Written?
    case Exit => p.consumer.Waiting? && !p.ready[p.consumed % 2] && p.done
  }

  function Apply<T>(p: Pipe<T>, s: Step<T>): Pipe<T>
    requires |p.ready| == 2 && |p.buf| == 2
  {
    match s
    case Begin => p.(filling := true)
    case Fill(c) => p.(buf := p.buf[p.produced % 2 := c])
    case HandOff =>
      p.(ready := p.ready[p.produced % 2 := true], produced := p.produced + 1, filling := false,
         handed := p.handed + [p.buf[p.produced % 2]])
    case Finish => p.(done := true)
    case Take => p.(consumer := Reading)
    case WriteBack => p.(consumer := Written, out := p.out + [p.buf[p.consumed % 2]])
    case Release =>
      p.(ready := p.ready[p.consumed % 2 := false], consumed := p.consumed + 1, consumer := Waiting)
    case Exit => p.(consumer := Exited)
  }

  ghost predicate Inv<T>(p: Pipe<T>, n: nat) {
    && |p.ready| == 2 && |p.buf| == 2
    && p.consumed <= p.produced <= p.consumed + 2
    && p.produced <= n && |p.handed| == p.produced
    && (p.filling ==> p.produced < p.consumed + 2 && p.produced < n && !p.done)
    && (forall j :: p.consumed <= j < p.produced ==> p.ready[j % 2] && p.buf[j % 2] == p.handed[j])
    && (p.produced < p.consumed + 2 ==> !p.ready[p.produced % 2])
    && (p.produced == p.consumed ==> !p.ready[(p.produced + 1) % 2])
    && (p.consumer.Reading? || p.consumer.Written? ==> p.consumed < p.produced)
    && (p.consumer.Exited? ==> p.done && p.consumed == p.produced)
    && p.out == p.handed[..if p.consumer.Written? then p.consumed + 1 else p.consumed]
  }

  lemma {:induction false} InitInv<T>(zero: T, n: nat)
    ensures Inv(Init(zero), n)
  {
  }

  lemma {:induction false} ProducerKeepsInv<T>(p: Pipe<T>, n: nat, s: Step<T>)
    requires Inv(p, n) && Enabled(p, n, s) && (s.Begin? || s.Fill? || s.HandOff? || s.Finish?)
    ensures Inv(Apply(p, s), n)
  {
    if p.produced == p.consumed + 2 {
      assert p.ready[p.consumed % 2];
    }
  }

  /** Every step of either thread keeps the two slots in order. */
  lemma {:induction false} StepKeepsInv<T>(p: Pipe<T>, n: nat, s: Step<T>)
    requires Inv(p, n) && Enabled(p, n, s)
    ensures Inv(Apply(p, s), n)
  {
    if s.Begin? || s.Fill? || s.HandOff? || s.Finish? {
      ProducerKeepsInv(p, n, s);
    } else if p.produced == p.consumed + 2 {
      assert p.ready[p.consumed % 2];
    }
  }

  ghost predicate Run<T(!new)>(trace: seq<Pipe<T>>, n: nat) {
    && trace != []
    && (exists zero :: trace[0] == Init(zero))
    && forall i :: 0 <= i < |trace| - 1 ==> Next(trace[i], trace[i + 1], n)
  }

  ghost predicate Next<T(!new)>(p: Pipe<T>, p': Pipe<T>, n: nat) {
    |p.ready| == 2 && |p.buf| == 2 && exists s :: Enabled(p, n, s) && p' == Apply(p, s)
  }

  lemma {:induction false} RunKeepsInv<T(!new)>(trace: seq<Pipe<T>>, n: nat, i: nat)
    requires Run(trace, n) && i < |trace|
    ensures Inv(trace[i], n)
  {
    if i == 0 {
    } else {
      RunKeepsInv(trace, n, i - 1);
      assert Next(trace[i - 1], trace[i], n);
      var s :| Enabled(trace[i - 1], n, s) && trace[i] == Apply(trace[i - 1], s);
      StepKeepsInv(trace[i - 1], n, s);
    }
  }

  /** Under every schedule the consumer writes back exactly the jobs handed over,
      each once and in order; when it has exited, all of them. */
  lemma {:induction false} DrainsInOrder<T(!new)>(trace: seq<Pipe<T>>, n: nat, i: nat)
    requires Run(trace, n) && i < |trace|
    ensures var p := trace[i]; p.out <= p.handed && |p.handed| == p.produced <= |p.out| + 2
    ensures trace[i].consumer.Exited? ==> trace[i].out == trace[i].handed
  {
    RunKeepsInv(trace, n, i);
  }

  /** What is left to do; every step but Fill makes it smaller. */
  function Remaining<T>(p: Pipe<T>, n: nat): int {
    2 * (n - p.produced) - (if p.filling then 1 else 0)
    + 3 * (n - p.consumed) - (if p.consumer.Reading? then 1 else if p.consumer.Written? then 2 else 0)
    + (if p.done then 0 else 1) + (if p.consumer.Exited? then 0 else 1)
  }

  /** The pipeline never deadlocks, and it terminates: until the consumer has
      exited some step other than Fill is enabled, and it shortens the run. */
  lemma {:induction false} Progress<T>(p: Pipe<T>, n: nat) returns (s: Step<T>)
    requires Inv(p, n) && !p.consumer.Exited?
    ensures Enabled(p, n, s) && !s.Fill?
    ensures s.Finish? ==> p.produced == n
    ensures 0 <= Remaining(Apply(p, s), n) < Remaining(p, n)
  {
    if p.consumer.Reading? {
      s := WriteBack;
    } else if p.consumer.Written? {
      s := Release;
    } else if p.ready[p.consumed % 2] {
      s := Take;
    } else if p.filling {
      s := HandOff;
    } else if p.done {
      s := Exit;
    } else if p.produced < n {
      s := Begin;
    } else {
      s := Finish;
    }
    StepKeepsInv(p, n, s);
  }

  lemma {:induction false} StepsShorten<T>(p: Pipe<T>, n: nat, s: Step<T>)
    requires Inv(p, n) && Enabled(p, n, s) && !s.Fill?
    ensures 0 <= Remaining(Apply(p, s), n) < Remaining(p, n)
  {
    StepKeepsInv(p, n, s);
  }
}
