/**
 * The node's own clock. The firmware spends microseconds by waiting and by talking to its
 * radio; the network tells the node what time it is. Here the two are reconciled, and the
 * chip is ticked to the result.
 */
module NodeClock {
  import opened Bytes
  import opened Radio
  import opened Clocking
  import opened Faults
  import opened Device

  /** What firmware does through the hardware layer: wait, or hand over an SPI buffer. */
  datatype FwOp = Wait(us: nat) | Transfer(out: seq<byte>)

  datatype HalOp =
    | Fw(call: FwOp)
    | BeginTick(networkMs: nat)
    | Engine(op: Op)          // the bridge reaching through to the chip

  datatype Hal = Hal(chip: Chip, localUs: nat)

  function PowerUpHal(stuckMs: nat): Hal {
    Hal(PowerUpChip(stuckMs), 0)
  }

  /** What a call costs. A command takes time although the chip never shows itself busy. */
  function Cost(op: HalOp): nat {
    match op
    case Fw(Wait(us)) => us
    case Fw(Transfer(out)) => 30 + 2 * |out|
    case _ => 0
  }

  /** Where the clock stands after an operation. */
  function ClockAfter(localUs: nat, op: HalOp): nat {
    match op
    case BeginTick(networkMs) => Max(localUs, 1000 * networkMs)
    case _ => localUs + Cost(op)
  }

  /** What the chip goes through during an operation that leaves the clock at localUs. */
  function ChipOps(localUs: nat, op: HalOp): seq<Op> {
    match op
    case Fw(Wait(_)) => [Tick(localUs / 1000)]
    case Fw(Transfer(out)) => [Tick(localUs / 1000), Command(out)]
    case BeginTick(_) => [Tick(localUs / 1000)]
    case Engine(op) => [op]
  }

  function ChipTick(c: Chip, localUs: nat): Chip {
    StepChip(c, Direct(Tick(localUs / 1000)))
  }

  function StepHal(h: Hal, op: HalOp): Hal {
    var us := ClockAfter(h.localUs, op);
    match op
    case Fw(Wait(_)) => Hal(ChipTick(h.chip, us), us)
    case Fw(Transfer(out)) => Hal(StepChip(ChipTick(h.chip, us), Direct(Command(out))), us)
    case BeginTick(_) => Hal(ChipTick(h.chip, us), us)
    case Engine(op) => Hal(StepChip(h.chip, Direct(op)), us)
  }

  function RunHal(h: Hal, ops: seq<HalOp>): Hal {
    if ops == [] then h else StepHal(RunHal(h, ops[..|ops| - 1]), ops[|ops| - 1])
  }

  lemma {:induction false} RunHalConcat(h: Hal, a: seq<HalOp>, b: seq<HalOp>)
    ensures RunHal(h, a + b) == RunHal(RunHal(h, a), b)
    decreases |b|
  {
    hide StepHal;
    if b == [] {
      assert a + b == a;
    } else {
      assert (a + b)[..|a + b| - 1] == a + b[..|b| - 1];
      RunHalConcat(h, a, b[..|b| - 1]);
    }
  }

  // ---- the clock in closed form ----

  /** Time spent by the operations from position k on. */
  function SpentFrom(ops: seq<HalOp>, k: nat): nat {
    if |ops| <= k then 0 else SpentFrom(ops[..|ops| - 1], k) + Cost(ops[|ops| - 1])
  }

  /** Where the clock would stand had the tick at position k set it and nothing after but spending moved it. */
  function Reckoned(ops: seq<HalOp>, k: nat): nat
    requires k < |ops| && ops[k].BeginTick?
  {
    1000 * ops[k].networkMs + SpentFrom(ops, k + 1)
  }

  lemma ReckonedNext(ops: seq<HalOp>, k: nat)
    requires k < |ops| - 1 && ops[k].BeginTick?
    ensures Reckoned(ops, k) == Reckoned(ops[..|ops| - 1], k) + Cost(ops[|ops| - 1])
  {
  }

  /** The clock is the largest of what was spent in all and what each tick reckons: never less than any
      of them, and always equal to one. So time spent beyond a tick carries over and is never forgiven. */
  lemma {:induction false} ClockClosedForm(h: Hal, ops: seq<HalOp>)
    ensures var us := RunHal(h, ops).localUs;
            && us >= h.localUs + SpentFrom(ops, 0)
            && (forall k: nat :: k < |ops| && ops[k].BeginTick? ==> us >= Reckoned(ops, k))
            && (us == h.localUs + SpentFrom(ops, 0)
                || exists k: nat :: k < |ops| && ops[k].BeginTick? && us == Reckoned(ops, k))
    decreases |ops|
  {
    hide StepChip, ChipTick, Reckoned;
    if ops != [] {
      var n := |ops| - 1;
      var front, last := ops[..n], ops[n];
      ClockClosedForm(h, front);
      var us, was := RunHal(h, ops).localUs, RunHal(h, front).localUs;
      assert us == ClockAfter(was, last);
      forall k: nat | k < n && ops[k].BeginTick?
        ensures Reckoned(ops, k) == Reckoned(front, k) + Cost(last) && front[k].BeginTick?
      {
        ReckonedNext(ops, k);
      }
      if last.BeginTick? {
        LastReckoned(ops);
        if us == was && us != h.localUs + SpentFrom(ops, 0) {
          var k: nat :| k < n && front[k].BeginTick? && was == Reckoned(front, k);
          assert us == Reckoned(ops, k);
        } else if us != was {
          assert us == Reckoned(ops, n);
        }
      } else if was != h.localUs + SpentFrom(front, 0) {
        var k: nat :| k < n && front[k].BeginTick? && was == Reckoned(front, k);
        assert us == Reckoned(ops, k);
      }
    }
  }

  lemma LastReckoned(ops: seq<HalOp>)
    requires ops != [] && ops[|ops| - 1].BeginTick?
    ensures Reckoned(ops, |ops| - 1) == 1000 * ops[|ops| - 1].networkMs
  {
  }

  // ---- the chip on this clock ----

  /** The bridge does not tick the chip behind the clock's back. */
  predicate Proper(ops: seq<HalOp>) {
    forall k :: 0 <= k < |ops| && ops[k].Engine? ==> !ops[k].op.Tick?
  }

  predicate InStep(h: Hal) {
    h.chip.radio.now == h.localUs / 1000
  }

  function RadioOps(h: Hal, ops: seq<HalOp>): seq<Op> {
    if ops == [] then []
    else
      var n := |ops| - 1;
      RadioOps(h, ops[..n]) + ChipOps(RunHal(h, ops).localUs, ops[n])
  }

  lemma StepHalIsRun(h: Hal, op: HalOp)
    requires InStep(h) && (op.Engine? ==> !op.op.Tick?)
    ensures var e := StepHal(h, op);
            var done := ChipOps(e.localUs, op);
            && e.localUs >= h.localUs && InStep(e)
            && e.chip.radio == Run(h.chip.radio, done)
            && Forward(h.chip.radio, done)
  {
    var r, e := h.chip.radio, StepHal(h, op);
    var done := ChipOps(e.localUs, op);
    assert done[..0] == [] && done[..1] == [done[0]];
    RunNext(r, done, 0);
    if |done| == 2 {
      RunNext(r, done, 1);
      assert done[..2] == done;
    }
    StepNow(r, done[0]);
    StepNow(Step(r, done[0]), Command(if op.Fw? && op.call.Transfer? then op.call.out else []));
    hide Step, Exec;
    assert StepChip(h.chip, Direct(done[0])).radio == Step(r, done[0]);
  }

  /** Over any run the node's time never goes back, the chip's clock is the node's in whole milliseconds,
      and the chip goes through a run of Radio in which time only moves forward. */
  lemma {:induction false} HalIsRun(h: Hal, ops: seq<HalOp>)
    requires InStep(h) && Proper(ops)
    ensures var e := RunHal(h, ops);
            && e.localUs >= h.localUs && InStep(e)
            && e.chip.radio == Run(h.chip.radio, RadioOps(h, ops))
            && Forward(h.chip.radio, RadioOps(h, ops))
    decreases |ops|
  {
    hide StepHal, ChipOps, InStep, Step;
    if ops != [] {
      var n := |ops| - 1;
      HalIsRun(h, ops[..n]);
      var m := RunHal(h, ops[..n]);
      StepHalIsRun(m, ops[n]);
      var done := ChipOps(RunHal(h, ops).localUs, ops[n]);
      RunConcat(h.chip.radio, RadioOps(h, ops[..n]), done);
      ForwardConcat(h.chip.radio, RadioOps(h, ops[..n]), done);
    }
  }

  predicate LeavesFault(ops: seq<HalOp>) {
    forall k :: 0 <= k < |ops| && ops[k].Engine? ==> !ops[k].op.StuckIrq?
  }

  lemma {:induction false} RadioOpsFaultFixed(h: Hal, ops: seq<HalOp>)
    requires LeavesFault(ops)
    ensures FaultFixed(RadioOps(h, ops))
    decreases |ops|
  {
    hide RunHal;
    if ops != [] {
      RadioOpsFaultFixed(h, ops[..|ops| - 1]);
    }
  }

  /** A node on this clock, from power-up, whatever its firmware and the engine do: its chip was never
      busy for longer than the node has been up, and misfired at most once per period of a fault left alone. */
  lemma NodeCountersInTime(s: nat, ops: seq<HalOp>)
    requires Proper(ops)
    ensures var e := RunHal(PowerUpHal(s), ops);
            && e.chip.radio.busyMs <= e.localUs / 1000
            && (s > 0 && LeavesFault(ops) ==> e.chip.radio.fault.raises <= e.localUs / 1000 / s + 1)
  {
    hide Run, RunHal, RadioOps;
    var h := PowerUpHal(s);
    HalIsRun(h, ops);
    BusyTimeInTime(h.chip.radio, RadioOps(h, ops));
    if s > 0 && LeavesFault(ops) {
      RadioOpsFaultFixed(h, ops);
      PowerUpInTime(s);
      CountersInTime(h.chip.radio, RadioOps(h, ops), s);
    }
  }

  // ---- the object ----

  class SimHal {
    const chip: VirtualSX1262
    var localUs: nat

    ghost predicate Valid()
      reads this, chip
    {
      chip.Valid()
    }

    ghost function State(): Hal
      reads this, chip, chip.buffer, chip.regs
    {
      Hal(chip.State(), localUs)
    }

    constructor (stuckMs: nat)
      ensures Valid() && fresh(chip) && fresh(chip.buffer) && fresh(chip.regs)
      ensures State() == PowerUpHal(stuckMs)
    {
      chip := new VirtualSX1262(stuckMs);
      localUs := 0;
    }

    method AdvanceUs(us: nat)
      requires Valid()
      modifies this, chip, chip.buffer
      ensures Valid() && State() == StepHal(old(State()), Fw(Wait(us)))
    {
      hide TickTo, Exec;
      localUs := localUs + us;
      chip.Tick(localUs / 1000);
    }

    method SpiTransfer(out: seq<byte>, reply: array<byte>)
      requires Valid() && reply.Length == |out| && reply != chip.buffer && reply != chip.regs
      modifies this, chip, chip.buffer, chip.regs, reply
      ensures Valid() && State() == StepHal(old(State()), Fw(Transfer(out)))
      ensures reply[..] == Answer(StepHal(old(State()), Fw(Wait(30 + |out| * 2))).chip, Direct(Command(out)))
    {
      hide StepChip, Answer;
      AdvanceUs(30 + |out| * 2);
      chip.SpiTransfer(out, reply);
    }

    method BeginTick(networkMs: nat)
      requires Valid()
      modifies this, chip, chip.buffer
      ensures Valid() && State() == StepHal(old(State()), HalOp.BeginTick(networkMs))
    {
      hide TickTo, Exec;
      var want := networkMs * 1000;
      if want > localUs {
        localUs := want;
      }
      chip.Tick(localUs / 1000);
    }
  }
}
