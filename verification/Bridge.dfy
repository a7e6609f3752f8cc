/**
 * The lockstep bridge around a native node. The engine owns the clock; a tick runs the
 * firmware's loop once per simulated millisecond, sends out what it transmitted, printed
 * and counted, and acknowledges.
 *
 * The firmware is any program at all: it is represented by what its setup, its loop and its
 * interrupt handler do through the platform the n-th time they are called, and every result
 * is for all such behaviours.
 */
module Bridge {
  import opened Bytes
  import opened Radio
  import opened Clocking
  import opened Device
  import opened Faults
  import opened NodeClock
  import opened Stats
  import opened Wire
  import Transmit
  import Server = RadioServer

  const CONSOLE_OUT: byte := 0x07
  const ORIGINATE: byte := 0x05

  /** What firmware does through the platform. */
  datatype Call =
    | OnHal(op: FwOp)
    | Print(text: seq<byte>)
    | SetClock(seconds: nat)
    | Attach | Detach          // the handler of the radio's interrupt line

  datatype Firmware = Firmware(setup: seq<Call>, loop: nat -> seq<Call>, isr: nat -> seq<Call>)

  /** The interrupt handler: attached or not, and how often it has run. */
  datatype Handler = Handler(attached: bool, runs: nat)

  datatype Node = Node(hal: Hal, handler: Handler, simMillis: nat, rtc: nat, console: seq<byte>,
                       toEngine: seq<Message>, loops: nat)

  function PowerUpNode(stuckMs: nat, rtc: nat): Node {
    Node(PowerUpHal(stuckMs), Handler(false, 0), 0, rtc, [], [], 0)
  }

  function Perform(n: Node, c: Call): Node {
    match c
    case OnHal(op) => n.(hal := StepHal(n.hal, Fw(op)))
    case Print(text) => n.(console := n.console + text)
    case SetClock(seconds) => n.(rtc := seconds)
    case Attach => n.(handler := n.handler.(attached := true))
    case Detach => n.(handler := n.handler.(attached := false))
  }

  function PerformAll(n: Node, cs: seq<Call>): (e: Node)
    ensures e.simMillis == n.simMillis && e.toEngine == n.toEngine && e.loops == n.loops
    ensures (forall c :: c in cs ==> !c.SetClock?) ==> e.rtc == n.rtc
  {
    if cs == [] then n else Perform(PerformAll(n, cs[..|cs| - 1]), cs[|cs| - 1])
  }

  function BeginTickNow(n: Node): Node {
    n.(hal := StepHal(n.hal, BeginTick(n.simMillis)))
  }

  /** Run the interrupt handler if there is one and the chip asks for it. */
  function ServiceIrq(n: Node, fw: Firmware): Node {
    if n.handler.attached && IrqAsserted(n.hal.chip.radio) then
      PerformAll(n.(handler := n.handler.(runs := n.handler.runs + 1)), fw.isr(n.handler.runs))
    else n
  }

  function RunLoop(n: Node, fw: Firmware): Node {
    PerformAll(n.(loops := n.loops + 1), fw.loop(n.loops))
  }

  function Drained(n: Node): Node {
    var o := n.hal.chip.radio.outbox;
    n.(hal := StepHal(n.hal, NodeClock.Engine(Drain)),
       toEngine := n.toEngine + if o.waiting then [Message(Server.FRAME, o.frame)] else [])
  }

  function Flushed(n: Node): Node {
    if n.console == [] then n
    else n.(console := [], toEngine := n.toEngine + [Message(CONSOLE_OUT, n.console)])
  }

  /** One pass of the tick loop at the present millisecond. */
  function Pass(n: Node, fw: Firmware): (e: Node)
    ensures e.simMillis == n.simMillis && e.loops == n.loops + 1
  {
    Drained(RunLoop(ServiceIrq(BeginTickNow(n), fw), fw))
  }

  /** The next millisecond; the real-time clock moves once in a thousand of them. */
  function NextMs(n: Node): (e: Node)
    ensures e.simMillis == n.simMillis + 1
  {
    n.(simMillis := n.simMillis + 1, rtc := n.rtc + if (n.simMillis + 1) % 1000 == 0 then 1 else 0)
  }

  function AdvanceTo(n: Node, at: nat, fw: Firmware): Node
    decreases at - n.simMillis
  {
    if n.simMillis < at then AdvanceTo(Pass(NextMs(n), fw), at, fw) else n
  }

  function StatsMessage(c: Chip): Message {
    Message(Server.RADIO_STATS, Body(c) + [0])
  }

  function Ticked(n: Node, payload: seq<byte>, fw: Firmware): Node
    requires |payload| == 4
  {
    var t := Flushed(Pass(AdvanceTo(n, Server.TickTarget(payload), fw), fw));
    t.(toEngine := t.toEngine + [StatsMessage(t.hal.chip), Message(Server.ACK, payload)])
  }

  function OnChip(n: Node, op: Op): Node {
    n.(hal := StepHal(n.hal, NodeClock.Engine(op)))
  }

  datatype Outcome = Running(n: Node) | Closed(n: Node)

  /** One message of the engine. A kind it does not know ends the bridge. */
  function Receive(n: Node, m: Message, fw: Firmware): Outcome {
    if m.kind == Server.FRAME then Running(OnChip(n, PushFrame(m.payload)))
    else if m.kind == Server.TX_DONE_MSG then Running(OnChip(n, TransmitFinished))
    else if m.kind == Server.CHANNEL_BUSY then Running(OnChip(n, ChannelBusy(m.payload != [] && m.payload[0] != 0)))
    else if m.kind == Server.TICK then Running(if |m.payload| == 4 then Ticked(n, m.payload, fw) else n)
    else if m.kind == Server.CONSOLE_IN || m.kind == ORIGINATE then Running(n)
    else Closed(n)
  }

  function Started(n: Node, fw: Firmware): Node {
    Flushed(Drained(PerformAll(n, fw.setup)))
  }

  /** The bridge from start-up, over any messages, to the first it does not know. */
  function Session(n: Node, ms: seq<Message>, fw: Firmware): Outcome {
    if ms == [] then Running(Started(n, fw))
    else
      match Session(n, ms[..|ms| - 1], fw)
      case Closed(e) => Closed(e)
      case Running(e) => Receive(e, ms[|ms| - 1], fw)
  }

  // ---- what calls leave behind ----

  /** A handler is attached if and only if the last call about it attached it. */
  lemma {:induction false} HandlerIsLastSet(n: Node, cs: seq<Call>, k: nat)
    requires k < |cs| && (cs[k].Attach? || cs[k].Detach?)
    requires forall j :: k < j < |cs| ==> !cs[j].Attach? && !cs[j].Detach?
    ensures PerformAll(n, cs).handler.attached <==> cs[k].Attach?
    decreases |cs|
  {
    hide StepHal;
    if k < |cs| - 1 {
      HandlerIsLastSet(n, cs[..|cs| - 1], k);
    }
  }

  /** The real-time clock shows what it was last set to. */
  lemma {:induction false} ClockIsLastSet(n: Node, cs: seq<Call>, k: nat)
    requires k < |cs| && cs[k].SetClock? && forall j :: k < j < |cs| ==> !cs[j].SetClock?
    ensures PerformAll(n, cs).rtc == cs[k].seconds
    decreases |cs|
  {
    hide StepHal;
    if k < |cs| - 1 {
      ClockIsLastSet(n, cs[..|cs| - 1], k);
    }
  }

  /** The handler runs if and only if it is attached and an enabled flag is up, once, and the loop runs once a pass. */
  lemma HandlerRuns(n: Node, fw: Firmware)
    ensures var e := ServiceIrq(n, fw);
            e.handler.runs == n.handler.runs
              + if n.handler.attached && n.hal.chip.radio.irq * n.hal.chip.radio.irqMask != {} then 1 else 0
  {
    if n.handler.attached && IrqAsserted(n.hal.chip.radio) {
      CallsRunNoHandler(n.(handler := n.handler.(runs := n.handler.runs + 1)), fw.isr(n.handler.runs));
    }
    hide PerformAll;
  }

  lemma {:induction false} CallsRunNoHandler(n: Node, cs: seq<Call>)
    ensures PerformAll(n, cs).handler.runs == n.handler.runs
    decreases |cs|
  {
    hide StepHal;
    if cs != [] {
      CallsRunNoHandler(n, cs[..|cs| - 1]);
    }
  }

  // ---- one tick ----

  /** What a pass sends: its frame, if the firmware left one, and none is left after it. */
  lemma PassSends(n: Node, fw: Firmware)
    ensures exists frames ::
              |frames| <= 1 && AllOfKind(frames, Server.FRAME) && Pass(n, fw).toEngine == n.toEngine + frames
    ensures !Pass(n, fw).hal.chip.radio.outbox.waiting
  {
    hide StepHal;
    DrainedEmpty(RunLoop(ServiceIrq(BeginTickNow(n), fw), fw));
    var m := RunLoop(ServiceIrq(BeginTickNow(n), fw), fw);
    var o := m.hal.chip.radio.outbox;
    var frames := if o.waiting then [Message(Server.FRAME, o.frame)] else [];
    assert m.toEngine == n.toEngine && |frames| <= 1 && AllOfKind(frames, Server.FRAME);
  }

  lemma DrainedEmpty(n: Node)
    ensures !Drained(n).hal.chip.radio.outbox.waiting
  {
  }

  lemma {:induction false} AdvanceShape(n: Node, at: nat, fw: Firmware) returns (frames: seq<Message>)
    ensures var e := AdvanceTo(n, at, fw);
            && e.simMillis == Max(n.simMillis, at) && e.loops == n.loops + Max(0, at - n.simMillis)
            && e.toEngine == n.toEngine + frames
            && AllOfKind(frames, Server.FRAME) && |frames| <= Max(0, at - n.simMillis)
    decreases at - n.simMillis
  {
    hide Pass;
    frames := [];
    if n.simMillis < at {
      var t := NextMs(n);
      PassSends(t, fw);
      var first :| |first| <= 1 && AllOfKind(first, Server.FRAME) && Pass(t, fw).toEngine == t.toEngine + first;
      var rest := AdvanceShape(Pass(t, fw), at, fw);
      frames := first + rest;
    }
  }

  /** A tick to `at` runs the loop exactly once per millisecond still to go and once more, ends at `at` unless
      the node was already past it, and sends at most one frame for each time round the loop, then at most one
      console message, then the statistics, then one acknowledgement echoing `at`, and nothing after it; no frame
      and no console output is left unsent. */
  lemma TickShape(n: Node, payload: seq<byte>, fw: Firmware) returns (frames: seq<Message>, printed: seq<Message>)
    requires |payload| == 4
    ensures var at, e := Server.TickTarget(payload), Ticked(n, payload, fw);
            && e.simMillis == Max(n.simMillis, at)
            && e.loops == n.loops + Max(0, at - n.simMillis) + 1
            && e.toEngine == n.toEngine + frames + printed + [StatsMessage(e.hal.chip), Message(Server.ACK, payload)]
            && AllOfKind(frames, Server.FRAME) && |frames| <= Max(0, at - n.simMillis) + 1
            && AllOfKind(printed, CONSOLE_OUT) && |printed| <= 1
            && e.console == [] && !e.hal.chip.radio.outbox.waiting
  {
    hide Pass, Body, AdvanceTo;
    var at := Server.TickTarget(payload);
    frames := AdvanceShape(n, at, fw);
    var t := AdvanceTo(n, at, fw);
    PassSends(t, fw);
    var last :| |last| <= 1 && AllOfKind(last, Server.FRAME) && Pass(t, fw).toEngine == t.toEngine + last;
    frames := frames + last;
    var p := Pass(t, fw);
    printed := if p.console == [] then [] else [Message(CONSOLE_OUT, p.console)];
  }

  /** The instant in a tick message is its four bytes, most significant first, and the loop runs to it. */
  lemma TickLandsOn(n: Node, p: seq<byte>, fw: Firmware)
    requires |p| == 4
    ensures var at := 0x100_0000 * (p[0] as nat) + 0x1_0000 * (p[1] as nat) + 0x100 * (p[2] as nat) + p[3];
            var e := NodeOf(Receive(n, Message(0x02, p), fw));
            && e.simMillis == Max(n.simMillis, at) && e.loops == n.loops + Max(0, at - n.simMillis) + 1
            && |e.toEngine| >= 2 && e.toEngine[|e.toEngine| - 1] == Message(0x03, p)
            && e.toEngine[|e.toEngine| - 2].kind == 0x09
  {
    var frames, printed := TickShape(n, p, fw);
    Server.TargetIs(p);
    hide Ticked, Server.TickTarget;
  }

  // ---- the real-time clock ----

  ghost predicate KeepsClock(fw: Firmware) {
    && (forall c :: c in fw.setup ==> !c.SetClock?)
    && (forall k: nat, c :: c in fw.loop(k) ==> !c.SetClock?)
    && (forall k: nat, c :: c in fw.isr(k) ==> !c.SetClock?)
  }

  predicate OnTime(n: Node, start: nat) {
    n.rtc == start + n.simMillis / 1000
  }

  lemma PassOnTime(n: Node, fw: Firmware, start: nat)
    requires KeepsClock(fw) && OnTime(n, start)
    ensures OnTime(Pass(n, fw), start)
  {
    hide StepHal;
  }

  lemma NextMsOnTime(n: Node, start: nat)
    requires OnTime(n, start)
    ensures OnTime(NextMs(n), start)
  {
    var t := n.simMillis;
    assert (t + 1) / 1000 == t / 1000 + if (t + 1) % 1000 == 0 then 1 else 0;
  }

  lemma {:induction false} AdvanceOnTime(n: Node, at: nat, fw: Firmware, start: nat)
    requires KeepsClock(fw) && OnTime(n, start)
    ensures OnTime(AdvanceTo(n, at, fw), start)
    decreases at - n.simMillis
  {
    hide Pass, KeepsClock, OnTime;
    if n.simMillis < at {
      NextMsOnTime(n, start);
      PassOnTime(NextMs(n), fw, start);
      AdvanceOnTime(Pass(NextMs(n), fw), at, fw, start);
    }
  }

  function NodeOf(o: Outcome): Node {
    o.n
  }

  /** Over any session in which the firmware does not set the clock, it shows its start value plus the whole
      seconds of simulated time. */
  lemma {:induction false} ClockOnTime(n: Node, ms: seq<Message>, fw: Firmware, start: nat)
    requires KeepsClock(fw) && OnTime(n, start)
    ensures OnTime(NodeOf(Session(n, ms, fw)), start)
    decreases |ms|
  {
    if ms == [] {
      hide StepHal;
      assert Started(n, fw).rtc == n.rtc && Started(n, fw).simMillis == n.simMillis;
    } else {
      hide KeepsClock, StepHal, Pass, AdvanceTo, Body;
      var front, m := ms[..|ms| - 1], ms[|ms| - 1];
      ClockOnTime(n, front, fw, start);
      var e := NodeOf(Session(n, front, fw));
      if m.kind == Server.TICK && |m.payload| == 4 {
        var at := Server.TickTarget(m.payload);
        AdvanceOnTime(e, at, fw, start);
        PassOnTime(AdvanceTo(e, at, fw), fw, start);
      }
    }
  }

  // ---- the node's run is a run of the hardware layer, and so of the radio ----

  /** n has become e by way of these operations of the hardware layer, and the frames sent to the engine on the way
      are what the radio's drains put on the wire. */
  ghost predicate Became(n: Node, ops: seq<HalOp>, e: Node) {
    && e.hal == RunHal(n.hal, ops) && Proper(ops) && LeavesFault(ops)
    && Server.FramesOf(e.toEngine)
         == Server.FramesOf(n.toEngine) + Transmit.Wire(n.hal.chip.radio, RadioOps(n.hal, ops))
    && (InStep(n.hal) ==> InStep(e.hal))
  }

  lemma BecameNothing(n: Node, e: Node)
    requires e.hal == n.hal && Server.FramesOf(e.toEngine) == Server.FramesOf(n.toEngine)
    ensures Became(n, [], e)
  {
  }

  lemma {:induction false} RadioOpsConcat(h: Hal, a: seq<HalOp>, b: seq<HalOp>)
    ensures RadioOps(h, a + b) == RadioOps(h, a) + RadioOps(RunHal(h, a), b)
    decreases |b|
  {
    hide StepHal, ChipOps;
    if b == [] {
      assert a + b == a;
    } else {
      assert (a + b)[..|a + b| - 1] == a + b[..|b| - 1];
      RadioOpsConcat(h, a, b[..|b| - 1]);
      RunHalConcat(h, a, b);
    }
  }

  lemma BecameConcat(n: Node, a: seq<HalOp>, m: Node, b: seq<HalOp>, e: Node)
    requires Became(n, a, m) && Became(m, b, e) && InStep(n.hal)
    ensures Became(n, a + b, e)
  {
    hide StepHal, InStep, RadioOps, Transmit.Wire, Server.FramesOf, Run, RunHal;
    var r := n.hal.chip.radio;
    RunHalConcat(n.hal, a, b);
    RadioOpsConcat(n.hal, a, b);
    HalIsRun(n.hal, a);
    Transmit.WireConcat(r, RadioOps(n.hal, a), RadioOps(m.hal, b));
  }

  /** One operation of the hardware layer, and what the engine gets from it. */
  lemma BecameByOne(n: Node, op: HalOp, e: Node)
    requires InStep(n.hal) && (op.Engine? ==> !op.op.Tick? && !op.op.StuckIrq?)
    requires e.hal == StepHal(n.hal, op)
    requires Server.FramesOf(e.toEngine) == Server.FramesOf(n.toEngine)
               + Transmit.OnWire(n.hal.chip.radio, if op.Engine? then op.op else Command([]))
    ensures Became(n, [op], e)
  {
    hide StepHal, InStep, Server.FramesOf, Transmit.Wire, RadioOps, ChipOps, RunHal, Run, Forward, Proper, LeavesFault;
    StepHalIsRun(n.hal, op);
    OneHalOp(n.hal, op);
    OneProper(op);
    OnWireOfHal(n.hal.chip.radio, e.hal.localUs, op);
  }

  lemma OneProper(op: HalOp)
    requires op.Engine? ==> !op.op.Tick? && !op.op.StuckIrq?
    ensures Proper([op]) && LeavesFault([op])
  {
  }

  lemma OneHalOp(h: Hal, op: HalOp)
    ensures RunHal(h, [op]) == StepHal(h, op) && RadioOps(h, [op]) == ChipOps(StepHal(h, op).localUs, op)
  {
    hide StepHal, ChipOps;
    assert [op][..0] == [] && RunHal(h, []) == h && RadioOps(h, []) == [];
  }

  lemma OnWireOfHal(r: Radio, localUs: nat, op: HalOp)
    requires op.Engine? ==> !op.op.Tick?
    ensures Transmit.Wire(r, ChipOps(localUs, op))
              == Transmit.OnWire(r, if op.Engine? then op.op else Command([]))
  {
    hide Step;
    var ops := ChipOps(localUs, op);
    Transmit.WireOfOne(r, ops[0]);
    if |ops| == 2 {
      Transmit.WireConcat(r, [ops[0]], [ops[1]]);
      assert [ops[0]] + [ops[1]] == ops;
      Transmit.WireOfOne(Run(r, [ops[0]]), ops[1]);
    } else {
      assert ops == [ops[0]];
    }
  }

  /** What a call asks of the hardware layer. */
  function CallOps(c: Call): seq<HalOp> {
    if c.OnHal? then [Fw(c.op)] else []
  }

  function CallsOps(cs: seq<Call>): seq<HalOp> {
    if cs == [] then [] else CallsOps(cs[..|cs| - 1]) + CallOps(cs[|cs| - 1])
  }

  /** What a pass asks of it: the clock, the handler's calls if the handler runs, the loop's calls, the drain. */
  function HandlerOps(n: Node, fw: Firmware): seq<HalOp> {
    if n.handler.attached && IrqAsserted(n.hal.chip.radio) then CallsOps(fw.isr(n.handler.runs)) else []
  }

  function PassOps(n: Node, fw: Firmware): seq<HalOp> {
    [BeginTick(n.simMillis)] + HandlerOps(BeginTickNow(n), fw) + CallsOps(fw.loop(n.loops)) + [DRAIN]
  }

  const DRAIN: HalOp := NodeClock.Engine(Drain)

  function AdvanceOps(n: Node, at: nat, fw: Firmware): seq<HalOp>
    decreases at - n.simMillis
  {
    if n.simMillis < at then PassOps(NextMs(n), fw) + AdvanceOps(Pass(NextMs(n), fw), at, fw) else []
  }

  function TickOps(n: Node, at: nat, fw: Firmware): seq<HalOp> {
    AdvanceOps(n, at, fw) + PassOps(AdvanceTo(n, at, fw), fw)
  }

  /** What one message of the engine makes the bridge do to the hardware layer. */
  function ReceiveOps(n: Node, m: Message, fw: Firmware): seq<HalOp> {
    if m.kind == Server.FRAME then [NodeClock.Engine(PushFrame(m.payload))]
    else if m.kind == Server.TX_DONE_MSG then [NodeClock.Engine(TransmitFinished)]
    else if m.kind == Server.CHANNEL_BUSY then [NodeClock.Engine(ChannelBusy(m.payload != [] && m.payload[0] != 0))]
    else if m.kind == Server.TICK && |m.payload| == 4 then TickOps(n, Server.TickTarget(m.payload), fw)
    else []
  }

  /** The operations of a whole session: the calls of setup and a drain, then message by message until one closes
      the bridge. */
  function HalOps(n: Node, ms: seq<Message>, fw: Firmware): seq<HalOp> {
    if ms == [] then CallsOps(fw.setup) + [DRAIN]
    else
      var front := ms[..|ms| - 1];
      HalOps(n, front, fw) +
      match Session(n, front, fw)
      case Closed(_) => []
      case Running(e) => ReceiveOps(e, ms[|ms| - 1], fw)
  }

  lemma PerformBecame(n: Node, c: Call)
    requires InStep(n.hal)
    ensures Became(n, CallOps(c), Perform(n, c)) && InStep(Perform(n, c).hal)
  {
    hide StepHal, Server.FramesOf;
    if c.OnHal? {
      BecameByOne(n, Fw(c.op), Perform(n, c));
    } else {
      BecameNothing(n, Perform(n, c));
    }
  }

  lemma {:induction false} PerformAllBecame(n: Node, cs: seq<Call>)
    requires InStep(n.hal)
    ensures Became(n, CallsOps(cs), PerformAll(n, cs)) && InStep(PerformAll(n, cs).hal)
    decreases |cs|
  {
    hide Perform, Became, InStep, CallOps;
    if cs == [] {
      BecameNothing(n, n);
    } else {
      var k := |cs| - 1;
      var m := PerformAll(n, cs[..k]);
      PerformAllBecame(n, cs[..k]);
      PerformBecame(m, cs[k]);
      BecameConcat(n, CallsOps(cs[..k]), m, CallOps(cs[k]), Perform(m, cs[k]));
    }
  }

  /** Whatever is not the hardware layer and not what was sent may be set aside. */
  lemma BecameFrom(n: Node, m: Node, ops: seq<HalOp>, e: Node)
    requires n.hal == m.hal && n.toEngine == m.toEngine && Became(m, ops, e)
    ensures Became(n, ops, e)
  {
  }

  lemma DrainedBecame(n: Node)
    requires InStep(n.hal)
    ensures Became(n, [DRAIN], Drained(n)) && InStep(Drained(n).hal)
  {
    hide StepHal;
    var o := n.hal.chip.radio.outbox;
    var sent := if o.waiting then [Message(Server.FRAME, o.frame)] else [];
    Server.FramesConcat(n.toEngine, sent);
    if o.waiting {
      assert sent[..0] == [] && Server.FramesOf(sent) == Server.FramesOf([]) + [o.frame];
    }
    hide Server.FramesOf;
    BecameByOne(n, DRAIN, Drained(n));
  }

  lemma ServiceBecame(n: Node, fw: Firmware)
    requires InStep(n.hal)
    ensures Became(n, HandlerOps(n, fw), ServiceIrq(n, fw)) && InStep(ServiceIrq(n, fw).hal)
  {
    hide PerformAll, CallsOps, Became, InStep;
    if n.handler.attached && IrqAsserted(n.hal.chip.radio) {
      var m := n.(handler := n.handler.(runs := n.handler.runs + 1));
      PerformAllBecame(m, fw.isr(n.handler.runs));
      BecameFrom(n, m, CallsOps(fw.isr(n.handler.runs)), ServiceIrq(n, fw));
    } else {
      BecameNothing(n, n);
    }
  }

  lemma LoopBecame(n: Node, fw: Firmware)
    requires InStep(n.hal)
    ensures Became(n, CallsOps(fw.loop(n.loops)), RunLoop(n, fw)) && InStep(RunLoop(n, fw).hal)
  {
    hide PerformAll, CallsOps, Became, InStep;
    var m := n.(loops := n.loops + 1);
    PerformAllBecame(m, fw.loop(n.loops));
    BecameFrom(n, m, CallsOps(fw.loop(n.loops)), RunLoop(n, fw));
  }

  lemma PassBecame(n: Node, fw: Firmware)
    requires InStep(n.hal)
    ensures Became(n, PassOps(n, fw), Pass(n, fw)) && InStep(Pass(n, fw).hal)
  {
    hide StepHal, PerformAll, Became, InStep, Server.FramesOf, Drained, HandlerOps, CallsOps;
    var b := BeginTickNow(n);
    var tick, isr, body := [BeginTick(n.simMillis)], HandlerOps(b, fw), CallsOps(fw.loop(n.loops));
    BecameByOne(n, BeginTick(n.simMillis), b);
    InStepAfter(n, tick, b);
    ServiceBecame(b, fw);
    var s := ServiceIrq(b, fw);
    BecameConcat(n, tick, b, isr, s);
    LoopBecame(s, fw);
    var l := RunLoop(s, fw);
    BecameConcat(n, tick + isr, s, body, l);
    DrainedBecame(l);
    BecameConcat(n, tick + isr + body, l, [DRAIN], Drained(l));
  }

  lemma InStepAfter(n: Node, ops: seq<HalOp>, e: Node)
    requires Became(n, ops, e) && InStep(n.hal)
    ensures InStep(e.hal)
  {
  }

  lemma FlushKeepsHal(n: Node)
    ensures Flushed(n).hal == n.hal && Server.FramesOf(Flushed(n).toEngine) == Server.FramesOf(n.toEngine)
  {
    hide StepHal;
    var said := if n.console == [] then [] else [Message(CONSOLE_OUT, n.console)];
    assert Flushed(n).toEngine == n.toEngine + said;
    Server.FramesConcat(n.toEngine, said);
    if said != [] {
      assert said[..0] == [] && Server.FramesOf(said) == Server.FramesOf([]) + [];
    }
  }

  lemma {:induction false} AdvanceBecame(n: Node, at: nat, fw: Firmware)
    requires InStep(n.hal)
    ensures Became(n, AdvanceOps(n, at, fw), AdvanceTo(n, at, fw)) && InStep(AdvanceTo(n, at, fw).hal)
    decreases at - n.simMillis
  {
    hide Pass, PassOps, Became, InStep;
    if n.simMillis < at {
      var t := NextMs(n);
      var p := Pass(t, fw);
      PassBecame(t, fw);
      BecameFrom(n, t, PassOps(t, fw), p);
      AdvanceBecame(p, at, fw);
      BecameConcat(n, PassOps(t, fw), p, AdvanceOps(p, at, fw), AdvanceTo(p, at, fw));
    } else {
      BecameNothing(n, n);
    }
  }

  lemma TickedBecame(n: Node, payload: seq<byte>, fw: Firmware)
    requires InStep(n.hal) && |payload| == 4
    ensures var ops := TickOps(n, Server.TickTarget(payload), fw);
            Became(n, ops, Ticked(n, payload, fw)) && InStep(Ticked(n, payload, fw).hal)
  {
    hide Pass, PassOps, AdvanceOps, Became, InStep, Flushed, AdvanceTo, Body, Server.FramesOf;
    var at := Server.TickTarget(payload);
    var a := AdvanceTo(n, at, fw);
    var p := Pass(a, fw);
    AdvanceBecame(n, at, fw);
    PassBecame(a, fw);
    BecameConcat(n, AdvanceOps(n, at, fw), a, PassOps(a, fw), p);
    var f, e := Flushed(p), Ticked(n, payload, fw);
    var report := [StatsMessage(f.hal.chip), Message(Server.ACK, payload)];
    Server.ReportHasNoFrames(report[0], report[1]);
    Server.FramesConcat(f.toEngine, report);
    FlushKeepsHal(p);
    assert e.hal == f.hal;
    BecameTold(n, TickOps(n, at, fw), p, f);
    BecameTold(n, TickOps(n, at, fw), f, e);
  }

  /** Telling the engine something other than frames adds no operation. */
  lemma BecameTold(n: Node, ops: seq<HalOp>, m: Node, e: Node)
    requires Became(n, ops, m) && e.hal == m.hal && Server.FramesOf(e.toEngine) == Server.FramesOf(m.toEngine)
    ensures Became(n, ops, e)
  {
  }

  lemma ReceiveBecame(n: Node, m: Message, fw: Firmware)
    requires InStep(n.hal)
    ensures Became(n, ReceiveOps(n, m, fw), NodeOf(Receive(n, m, fw))) && InStep(NodeOf(Receive(n, m, fw)).hal)
  {
    hide Ticked, TickOps, Became, InStep, StepHal, Server.FramesOf;
    BecameNothing(n, n);
    var e := NodeOf(Receive(n, m, fw));
    if m.kind == Server.FRAME || m.kind == Server.TX_DONE_MSG || m.kind == Server.CHANNEL_BUSY {
      var op := ReceiveOps(n, m, fw)[0];
      assert ReceiveOps(n, m, fw) == [op];
      BecameByOne(n, op, e);
      InStepAfter(n, [op], e);
    } else if m.kind == Server.TICK && |m.payload| == 4 {
      TickedBecame(n, m.payload, fw);
    }
  }

  /** Any session with any firmware is exactly the run of the hardware layer that HalOps spells out, call by call and
      message by message, and the frames sent to the engine are what the drains of that run put on the wire. */
  lemma {:induction false} SessionBecame(n: Node, ms: seq<Message>, fw: Firmware)
    requires InStep(n.hal)
    ensures Became(n, HalOps(n, ms, fw), NodeOf(Session(n, ms, fw))) && InStep(NodeOf(Session(n, ms, fw)).hal)
    decreases |ms|
  {
    hide Became, InStep, Receive, ReceiveOps, Started, CallsOps;
    if ms == [] {
      StartedBecame(n, fw);
    } else {
      var front, m := ms[..|ms| - 1], ms[|ms| - 1];
      SessionBecame(n, front, fw);
      var o := Session(n, front, fw);
      if o.Running? {
        ReceiveBecame(o.n, m, fw);
        BecameConcat(n, HalOps(n, front, fw), o.n, ReceiveOps(o.n, m, fw), NodeOf(Receive(o.n, m, fw)));
      } else {
        assert HalOps(n, ms, fw) == HalOps(n, front, fw);
      }
    }
  }

  lemma StartedBecame(n: Node, fw: Firmware)
    requires InStep(n.hal)
    ensures Became(n, CallsOps(fw.setup) + [DRAIN], Started(n, fw)) && InStep(Started(n, fw).hal)
  {
    hide Became, InStep, PerformAll, Drained, Flushed, CallsOps, Server.FramesOf;
    var p := PerformAll(n, fw.setup);
    PerformAllBecame(n, fw.setup);
    DrainedBecame(p);
    BecameConcat(n, CallsOps(fw.setup), p, [DRAIN], Drained(p));
    FlushKeepsHal(Drained(p));
    BecameTold(n, CallsOps(fw.setup) + [DRAIN], Drained(p), Started(n, fw));
  }

  /** What the radio of a native node goes through, from power-up over a session. */
  function NodeOps(stuckMs: nat, rtc: nat, ms: seq<Message>, fw: Firmware): seq<Op> {
    var n := PowerUpNode(stuckMs, rtc);
    RadioOps(n.hal, HalOps(n, ms, fw))
  }

  /** A native node from power-up, whatever its firmware is and whatever the engine sends: the frames the engine gets
      are, slot by slot, the last frame its firmware committed in the slot, and all of them if no slot had two; the
      chip's clock is the node's, and its counters stay within it. */
  lemma NodeFromPowerUp(stuckMs: nat, rtc: nat, ms: seq<Message>, fw: Firmware)
    ensures var n := PowerUpNode(stuckMs, rtc);
            var r, ops, e := n.hal.chip.radio, NodeOps(stuckMs, rtc, ms, fw), NodeOf(Session(n, ms, fw));
            && e.hal.chip.radio == Run(r, ops) && Forward(r, ops)
            && Server.FramesOf(e.toEngine) == Transmit.LastPerSlot(r, ops)
            && (Transmit.OnePerSlot(r, ops) ==>
                  Server.FramesOf(e.toEngine) + Transmit.LastOf(Transmit.Slot(r, ops)) == Transmit.Commits(r, ops))
            && e.hal.chip.radio.now == e.hal.localUs / 1000
            && e.hal.chip.radio.busyMs <= e.hal.localUs / 1000
            && (stuckMs > 0 ==> e.hal.chip.radio.fault.raises <= e.hal.localUs / 1000 / stuckMs + 1)
  {
    var n := PowerUpNode(stuckMs, rtc);
    assert InStep(n.hal) && Server.FramesOf(n.toEngine) == [] && !n.hal.chip.radio.outbox.waiting;
    hide Session, HalOps, Run, RunHal, RadioOps, Server.FramesOf;
    hide Transmit.LastPerSlot, Transmit.Wire, Transmit.Commits, Transmit.Slot;
    SessionBecame(n, ms, fw);
    var r, hal := n.hal.chip.radio, HalOps(n, ms, fw);
    HalIsRun(n.hal, hal);
    NodeCountersInTime(stuckMs, hal);
    Transmit.WireIsLastPerSlot(r, RadioOps(n.hal, hal));
    Transmit.LosslessIff(r, RadioOps(n.hal, hal));
  }

  // ---- what the engine reads of it ----

  /** Every message but console output fits the length field. */
  predicate OthersFit(ms: seq<Message>) {
    forall k :: 0 <= k < |ms| && ms[k].kind != CONSOLE_OUT ==> |ms[k].payload| <= MAX_PAYLOAD
  }

  predicate ConsoleFits(ms: seq<Message>) {
    forall k :: 0 <= k < |ms| && ms[k].kind == CONSOLE_OUT ==> |ms[k].payload| <= MAX_PAYLOAD
  }

  /** What the node has sent and the frame that may go next. */
  predicate Writable(n: Node) {
    Transmit.ShortFrame(n.hal.chip.radio) && OthersFit(n.toEngine)
  }

  lemma HalKeeps(h: Hal, op: HalOp)
    requires Transmit.ShortFrame(h.chip.radio)
    ensures Transmit.ShortFrame(StepHal(h, op).chip.radio)
  {
    var us := ClockAfter(h.localUs, op);
    hide Step, Transmit.ShortFrame, RunCommand;
    match op {
      case Fw(Wait(_)) => EventKeeps(h.chip, Tick(us / 1000));
      case Fw(Transfer(out)) =>
        EventKeeps(h.chip, Tick(us / 1000));
        EventKeeps(ChipTick(h.chip, us), Command(out));
      case BeginTick(_) => EventKeeps(h.chip, Tick(us / 1000));
      case Engine(op) => EventKeeps(h.chip, op);
    }
  }

  lemma EventKeeps(c: Chip, op: Op)
    requires Transmit.ShortFrame(c.radio)
    ensures Transmit.ShortFrame(StepChip(c, Direct(op)).radio)
  {
    EventIsOps(c, Direct(op));
    hide StepChip, Transmit.ShortFrame;
    Transmit.RunKeepsShort(c.radio, Clocking.OpsOf(c.link, Direct(op)));
  }

  lemma {:induction false} PerformAllKeeps(n: Node, cs: seq<Call>)
    requires Writable(n)
    ensures Writable(PerformAll(n, cs))
    decreases |cs|
  {
    hide StepHal, Transmit.ShortFrame, OthersFit;
    if cs != [] {
      var k := |cs| - 1;
      PerformAllKeeps(n, cs[..k]);
      if cs[k].OnHal? {
        HalKeeps(PerformAll(n, cs[..k]).hal, Fw(cs[k].op));
      }
    }
  }

  lemma DrainedKeeps(n: Node)
    requires Writable(n)
    ensures Writable(Drained(n))
  {
    hide StepHal;
    HalKeeps(n.hal, DRAIN);
  }

  lemma FlushedKeeps(n: Node)
    requires Writable(n)
    ensures Writable(Flushed(n))
  {
    hide StepHal;
  }

  lemma PassKeeps(n: Node, fw: Firmware)
    requires Writable(n)
    ensures Writable(Pass(n, fw))
  {
    hide StepHal, PerformAll, Drained, Transmit.ShortFrame, OthersFit;
    HalKeeps(n.hal, BeginTick(n.simMillis));
    var b := BeginTickNow(n);
    if b.handler.attached && IrqAsserted(b.hal.chip.radio) {
      PerformAllKeeps(b.(handler := b.handler.(runs := b.handler.runs + 1)), fw.isr(b.handler.runs));
    }
    var s := ServiceIrq(b, fw);
    PerformAllKeeps(s.(loops := s.loops + 1), fw.loop(s.loops));
    DrainedKeeps(RunLoop(s, fw));
  }

  lemma {:induction false} AdvanceKeeps(n: Node, at: nat, fw: Firmware)
    requires Writable(n)
    ensures Writable(AdvanceTo(n, at, fw))
    decreases at - n.simMillis
  {
    hide Pass, Transmit.ShortFrame, OthersFit;
    if n.simMillis < at {
      PassKeeps(NextMs(n), fw);
      AdvanceKeeps(Pass(NextMs(n), fw), at, fw);
    }
  }

  lemma TickedKeeps(n: Node, payload: seq<byte>, fw: Firmware)
    requires Writable(n) && |payload| == 4
    ensures Writable(Ticked(n, payload, fw))
  {
    var at := Server.TickTarget(payload);
    AdvanceKeeps(n, at, fw);
    PassKeeps(AdvanceTo(n, at, fw), fw);
    FlushedKeeps(Pass(AdvanceTo(n, at, fw), fw));
    hide Pass, AdvanceTo, Flushed, Transmit.ShortFrame, Body;
  }

  lemma ReceiveKeeps(n: Node, m: Message, fw: Firmware)
    requires Writable(n)
    ensures Writable(NodeOf(Receive(n, m, fw)))
  {
    hide Ticked, StepHal, Transmit.ShortFrame, OthersFit;
    if m.kind == Server.FRAME || m.kind == Server.TX_DONE_MSG || m.kind == Server.CHANNEL_BUSY {
      HalKeeps(n.hal, ReceiveOps(n, m, fw)[0]);
    } else if m.kind == Server.TICK && |m.payload| == 4 {
      TickedKeeps(n, m.payload, fw);
    }
  }

  lemma {:induction false} SessionKeeps(n: Node, ms: seq<Message>, fw: Firmware)
    requires Writable(n)
    ensures Writable(NodeOf(Session(n, ms, fw)))
    decreases |ms|
  {
    hide Receive, Writable, PerformAll, Drained, Flushed;
    if ms == [] {
      PerformAllKeeps(n, fw.setup);
      DrainedKeeps(PerformAll(n, fw.setup));
      FlushedKeeps(Drained(PerformAll(n, fw.setup)));
    } else {
      var front := ms[..|ms| - 1];
      SessionKeeps(n, front, fw);
      if Session(n, front, fw).Running? {
        ReceiveKeeps(Session(n, front, fw).n, ms[|ms| - 1], fw);
      }
    }
  }

  /** From power-up, whatever the firmware and the engine do, the engine reads back exactly what the node sent if and
      only if no flush of the console was longer than the length field can say. From a longer one on, acknowledgements
      included, the stream no longer says what was sent. */
  lemma EngineReadsAllIff(stuckMs: nat, rtc: nat, ms: seq<Message>, fw: Firmware)
    ensures var sent := NodeOf(Session(PowerUpNode(stuckMs, rtc), ms, fw)).toEngine;
            DecodeAll(EncodeAll(sent)) == (sent, []) <==> ConsoleFits(sent)
  {
    var n := PowerUpNode(stuckMs, rtc);
    assert Writable(n);
    SessionKeeps(n, ms, fw);
    hide Session, PowerUpNode, Transmit.ShortFrame, DecodeAll, EncodeAll;
    RoundTripIff(NodeOf(Session(n, ms, fw)).toEngine);
  }

  // ---- the object ----

  class NativeBridge {
    const fw: Firmware
    const hal: SimHal
    var handler: Handler
    var simMillis: nat
    var rtc: nat
    var console: seq<byte>
    var toEngine: seq<Message>
    var loops: nat

    ghost predicate Valid()
      reads this, hal, hal.chip
    {
      hal.Valid()
    }

    ghost function State(): Node
      reads this, hal, hal.chip, hal.chip.buffer, hal.chip.regs
    {
      Node(hal.State(), handler, simMillis, rtc, console, toEngine, loops)
    }

    constructor (fw: Firmware, stuckMs: nat, rtc: nat)
      ensures Valid() && this.fw == fw
      ensures fresh(hal) && fresh(hal.chip) && fresh(hal.chip.buffer) && fresh(hal.chip.regs)
      ensures State() == PowerUpNode(stuckMs, rtc)
    {
      this.fw := fw;
      hal := new SimHal(stuckMs);
      handler, simMillis, this.rtc, console, toEngine, loops := Handler(false, 0), 0, rtc, [], [], 0;
    }

    method PerformCall(c: Call)
      requires Valid()
      modifies this`handler, this`rtc, this`console, hal, hal.chip, hal.chip.buffer, hal.chip.regs
      ensures Valid() && State() == Perform(old(State()), c)
    {
      hide StepHal;
      match c {
        case OnHal(op) =>
          PerformOnHal(op);
        case Print(text) =>
          console := console + text;
        case SetClock(seconds) =>
          rtc := seconds;
        case Attach =>
          handler := handler.(attached := true);
        case Detach =>
          handler := handler.(attached := false);
      }
    }

    method PerformCalls(cs: seq<Call>)
      requires Valid()
      modifies this`handler, this`rtc, this`console, hal, hal.chip, hal.chip.buffer, hal.chip.regs
      ensures Valid() && State() == PerformAll(old(State()), cs)
    {
      hide Perform;
      for i := 0 to |cs|
        invariant Valid() && State() == PerformAll(old(State()), cs[..i])
      {
        PerformCall(cs[i]);
        assert cs[..i + 1][..i] == cs[..i];
      }
      assert cs[..|cs|] == cs;
    }

    method ServicePendingIrq()
      requires Valid()
      modifies this`handler, this`rtc, this`console, hal, hal.chip, hal.chip.buffer, hal.chip.regs
      ensures Valid() && State() == ServiceIrq(old(State()), fw)
    {
      hide PerformAll;
      var asserted := hal.chip.IrqAsserted();
      if handler.attached && asserted {
        var run := handler.runs;
        handler := handler.(runs := run + 1);
        PerformCalls(fw.isr(run));
      }
    }

    method Loop()
      requires Valid()
      modifies this`handler, this`rtc, this`console, this`loops, hal, hal.chip, hal.chip.buffer, hal.chip.regs
      ensures Valid() && State() == RunLoop(old(State()), fw)
    {
      hide PerformAll;
      var k := loops;
      loops := k + 1;
      PerformCalls(fw.loop(k));
    }

    method WriteMsg(kind: byte, payload: seq<byte>)
      modifies this`toEngine
      ensures toEngine == old(toEngine) + [Message(kind, payload)]
    {
      toEngine := toEngine + [Message(kind, payload)];
    }

    method FlushConsole()
      requires Valid()
      modifies this`console, this`toEngine
      ensures State() == Flushed(old(State()))
    {
      if |console| == 0 {
        return;
      }
      WriteMsg(CONSOLE_OUT, console);
      console := [];
    }

    method DrainTx()
      requires Valid()
      modifies this`toEngine, hal.chip
      ensures Valid() && State() == Drained(old(State()))
    {
      hide TickTo, Exec;
      if !hal.chip.outbox.waiting {
        return;
      }
      var _, frame := hal.chip.TakePending();
      WriteMsg(Server.FRAME, frame);
    }

    /** Catch up with the clock, serve the interrupt, run the loop once, send what it left. */
    method PassNow()
      requires Valid()
      modifies this, hal, hal.chip, hal.chip.buffer, hal.chip.regs
      ensures Valid() && State() == Pass(old(State()), fw)
    {
      hide StepHal, ServiceIrq, RunLoop, Drained;
      hal.BeginTick(simMillis);
      assert State() == BeginTickNow(old(State()));
      ServicePendingIrq();
      Loop();
      DrainTx();
    }

    method WriteStats()
      requires Valid()
      modifies this`toEngine
      ensures toEngine == old(toEngine) + [StatsMessage(hal.chip.State())]
    {
      hide Body;
      var sb := BridgeRecord(hal.chip);
      WriteMsg(Server.RADIO_STATS, sb[..]);
    }

    method StepMs()
      requires Valid()
      modifies this, hal, hal.chip, hal.chip.buffer, hal.chip.regs
      ensures Valid() && State() == Pass(NextMs(old(State())), fw)
    {
      hide Pass;
      simMillis := simMillis + 1;
      if simMillis % 1000 == 0 {
        rtc := rtc + 1;
      }
      assert State() == NextMs(old(State()));
      PassNow();
    }

    method TickNow(payload: seq<byte>)
      requires Valid() && |payload| == 4
      modifies this, hal, hal.chip, hal.chip.buffer, hal.chip.regs
      ensures Valid() && State() == Ticked(old(State()), payload, fw)
    {
      hide Pass, StatsMessage, Flushed, NextMs;
      var at := Server.TickTarget(payload);
      while simMillis < at
        invariant Valid() && AdvanceTo(State(), at, fw) == AdvanceTo(old(State()), at, fw)
        decreases at - simMillis
      {
        StepMs();
      }
      PassNow();
      FlushConsole();
      Acknowledge(payload);
    }

    method Acknowledge(payload: seq<byte>)
      requires Valid()
      modifies this`toEngine
      ensures var s := old(State());
              State() == s.(toEngine := s.toEngine + [StatsMessage(s.hal.chip), Message(Server.ACK, payload)])
    {
      hide StatsMessage;
      WriteStats();
      WriteMsg(Server.ACK, payload);
    }

    /** One message from the engine; whether the bridge goes on after it. */
    method Serve(m: Message) returns (running: bool)
      requires Valid()
      modifies this, hal, hal.chip, hal.chip.buffer, hal.chip.regs
      ensures Valid()
      ensures Receive(old(State()), m, fw) == if running then Running(State()) else Closed(State())
    {
      hide Ticked, TickTo;
      running := true;
      if m.kind == Server.FRAME {
        hal.chip.PushFrame(m.payload);
      } else if m.kind == Server.TX_DONE_MSG {
        hal.chip.TransmitFinished();
      } else if m.kind == Server.CHANNEL_BUSY {
        hal.chip.SetChannelBusy(m.payload != [] && m.payload[0] != 0);
      } else if m.kind == Server.CONSOLE_IN || m.kind == ORIGINATE {
      } else if m.kind == Server.TICK {
        if |m.payload| == 4 {
          TickNow(m.payload);
        }
      } else {
        running := false;
      }
    }

    /** The main program: setup, then messages until one it does not know. */
    method Converse(ms: seq<Message>) returns (running: bool)
      requires Valid()
      modifies this, hal, hal.chip, hal.chip.buffer, hal.chip.regs
      ensures Valid()
      ensures Session(old(State()), ms, fw) == if running then Running(State()) else Closed(State())
    {
      hide Receive, Started;
      Start();
      running := true;
      var i := 0;
      while i < |ms| && running
        invariant Valid() && 0 <= i <= |ms|
        invariant Session(old(State()), ms[..i], fw) == if running then Running(State()) else Closed(State())
      {
        running := Serve(ms[i]);
        i := i + 1;
        assert ms[..i][..i - 1] == ms[..i - 1];
      }
      ghost var s := old(State());
      if running {
        assert ms[..i] == ms;
      } else {
        ClosedStays(s, ms, i, fw);
      }
    }

    method Start()
      requires Valid()
      modifies this, hal, hal.chip, hal.chip.buffer, hal.chip.regs
      ensures Valid() && State() == Started(old(State()), fw)
    {
      hide PerformAll, Drained, Flushed;
      PerformCalls(fw.setup);
      DrainTx();
      FlushConsole();
    }

    method PerformOnHal(op: FwOp)
      requires Valid()
      modifies hal, hal.chip, hal.chip.buffer, hal.chip.regs
      ensures Valid() && hal.State() == StepHal(old(hal.State()), Fw(op))
    {
      hide TickTo, Exec;
      match op {
        case Wait(us) =>
          hal.AdvanceUs(us);
        case Transfer(out) =>
          var reply := new byte[|out|];
          hal.SpiTransfer(out, reply);
      }
    }
  }

  /** Messages after the one that closed the bridge are not read. */
  lemma {:induction false} ClosedStays(n: Node, ms: seq<Message>, i: nat, fw: Firmware)
    requires i <= |ms| && Session(n, ms[..i], fw).Closed?
    ensures Session(n, ms, fw) == Session(n, ms[..i], fw)
    decreases |ms|
  {
    hide Receive, Started;
    if i < |ms| {
      assert ms[..|ms| - 1][..i] == ms[..i];
      ClosedStays(n, ms[..|ms| - 1], i, fw);
    } else {
      assert ms[..i] == ms;
    }
  }
}
