/**
 * The interrupt register over whole runs: which operation raises what, that nothing but
 * ClearIrqStatus lowers a flag, and that a flag is up exactly when something raised it
 * and nobody has cleared it since.
 */
module Irq {
  import opened Bytes
  import opened Radio

  // ---- bookkeeping of the detectors ----

  /** A detector that has fired for the signal on the air still has its flag up. */
  predicate Booked(r: Radio) {
    && (r.air.preambleRaised ==> r.air.busy && PREAMBLE in r.irq)
    && (r.air.headerRaised ==> r.air.busy && HEADER in r.irq)
  }

  lemma PowerUpBooked(stuckMs: nat)
    ensures Booked(PowerUp(stuckMs)) && PowerUp(stuckMs).irq == {}
  {
  }

  lemma StepKeepsBooked(r: Radio, op: Op)
    requires Booked(r)
    ensures Booked(Step(r, op))
  {
    hide TickTo, Apply, Decode;
    if op.Tick? {
      TickKeepsBooked(r, op.at);
    } else if op.Command? && op.out != [] {
      ActionKeepsBooked(r, Decode(op.out));
    }
  }

  lemma TickKeepsBooked(r: Radio, at: nat)
    requires Booked(r)
    ensures Booked(TickTo(r, at))
  {
    hide WriteAt, Heard, Kept;
  }

  lemma ActionKeepsBooked(r: Radio, a: Action)
    requires Booked(r)
    ensures Booked(Apply(r, a))
  {
    hide WriteAt, BandwidthHz, Outgoing;
  }

  lemma {:induction false} RunKeepsBooked(r: Radio, ops: seq<Op>)
    requires Booked(r)
    ensures Booked(Run(r, ops))
    decreases |ops|
  {
    hide Step, Booked;
    if ops != [] {
      var n := |ops| - 1;
      RunKeepsBooked(r, ops[..n]);
      StepKeepsBooked(Run(r, ops[..n]), ops[n]);
    }
  }

  /** Telling the chip again that the channel is busy changes nothing: the timer is not restarted. */
  lemma BusyAgainIsNothing(r: Radio)
    requires r.air.busy
    ensures Step(r, ChannelBusy(true)) == r
  {
  }

  // ---- what raises what ----

  /** The bits an operation raises, in terms of what is going on at the antenna: a misfire, a frame
      taken from the air, a signal heard for long enough, the end of a transmission, a channel scan.
      Only the sync word is raised no more than once per header detection. */
  function Raised(r: Radio, op: Op): Bits {
    match op
    case Tick(at) =>
      if r.mode == Rx then
        (if SpuriousDue(r, at) then {PREAMBLE} else {})
        + (if r.inbox != [] then {RX_DONE, PREAMBLE, HEADER, SYNC_WORD} else {})
        + (if r.air.busy && Heard(r, at, PREAMBLE_SYMBOLS) then {PREAMBLE} else {})
        + (if r.air.busy && Heard(r, at, HEADER_SYMBOLS) then {HEADER} else {})
        + (if r.air.busy && Heard(r, at, HEADER_SYMBOLS) && !r.air.headerRaised then {SYNC_WORD} else {})
      else {}
    case TransmitFinished => if r.mode == Tx then {TX_DONE} else {}
    case Command(out) =>
      if out != [] && out[0] == SET_CAD then {CAD_DONE} + (if r.air.busy then {CAD_DETECTED} else {}) else {}
    case _ => {}
  }

  lemma TickIrq(r: Radio, at: nat)
    requires Booked(r)
    ensures TickTo(r, at).irq == r.irq + Raised(r, Tick(at))
  {
    hide WriteAt, Kept, SinceBusy, Bandwidth;
    var a := Accrue(r, at);
    var m := Misfire(a);
    if m.mode == Rx {
      var d := Deliver(m);
      var p := DetectPreamble(d);
      assert Heard(d, d.now, PREAMBLE_SYMBOLS) == Heard(r, at, PREAMBLE_SYMBOLS);
      assert Heard(p, p.now, HEADER_SYMBOLS) == Heard(r, at, HEADER_SYMBOLS);
      hide Heard;
      assert m.irq == r.irq + if SpuriousDue(r, at) then {PREAMBLE} else {};
      assert d.irq == m.irq + if r.inbox != [] then {RX_DONE, PREAMBLE, HEADER, SYNC_WORD} else {};
      assert p.irq == d.irq + if r.air.busy && Heard(r, at, PREAMBLE_SYMBOLS) then {PREAMBLE} else {};
      assert DetectHeader(p).irq == p.irq
        + (if r.air.busy && Heard(r, at, HEADER_SYMBOLS) then {HEADER} else {})
        + (if r.air.busy && Heard(r, at, HEADER_SYMBOLS) && !r.air.headerRaised then {SYNC_WORD} else {});
    }
  }

  /** The whole law of the register, for every operation: the bits asked to be cleared go down and no
      others, the bits the operation raises come up and no others. */
  lemma IrqEquation(r: Radio, op: Op)
    requires Booked(r)
    ensures Step(r, op).irq == r.irq - ClearMask(op) + Raised(r, op)
  {
    hide TickTo, WriteAt, BandwidthHz, Outgoing, Booked;
    if op.Tick? {
      TickIrq(r, op.at);
    } else if op.Command? {
      CommandIrq(r, op.out);
    }
  }

  lemma CommandIrq(r: Radio, out: seq<byte>)
    ensures Exec(r, out).irq == r.irq - ClearMask(Command(out)) + Raised(r, Command(out))
  {
    hide WriteAt, BandwidthHz, Outgoing, PllToHz, Register;
  }

  // ---- whole runs ----

  ghost predicate RaisedAt(r: Radio, ops: seq<Op>, k: nat, b: nat) {
    k < |ops| && b in Raised(Run(r, ops[..k]), ops[k])
  }

  /** b was raised by some operation of the run and no later operation named it for clearing. */
  ghost predicate RaisedAndKept(r: Radio, ops: seq<Op>, b: nat) {
    exists k: nat :: RaisedAt(r, ops, k, b) && NotClearedFrom(ops, k + 1, b)
  }

  /** Provenance, both ways: over any run, a flag is up at the end if and only if something in the run
      raised it and nothing cleared it after, or it was up at the start and never cleared. */
  lemma {:induction false} UpIff(r: Radio, ops: seq<Op>, b: nat)
    requires Booked(r)
    ensures b in Run(r, ops).irq <==> RaisedAndKept(r, ops, b) || (b in r.irq && NotClearedFrom(ops, 0, b))
    decreases |ops|
  {
    hide Step, Raised, ClearMask, Booked;
    if ops != [] {
      var n := |ops| - 1;
      var front, last := ops[..n], ops[n];
      UpIff(r, front, b);
      RunKeepsBooked(r, front);
      IrqEquation(Run(r, front), last);
      assert b in Run(r, ops).irq <==> (b in Run(r, front).irq && b !in ClearMask(last)) || RaisedAt(r, ops, n, b);
      if RaisedAt(r, ops, n, b) {
        assert NotClearedFrom(ops, n + 1, b);
      }
      forall k: nat | k < n ensures RaisedAt(r, ops, k, b) == RaisedAt(r, front, k, b) {
        assert ops[..k] == front[..k];
      }
      forall k: nat | k <= n
        ensures NotClearedFrom(ops, k, b) <==> NotClearedFrom(front, k, b) && b !in ClearMask(last)
      {
        if NotClearedFrom(ops, k, b) {
          assert b !in ClearMask(ops[n]);
          assert forall j :: k <= j < n ==> front[j] == ops[j];
        }
      }
    } else {
      assert !RaisedAndKept(r, ops, b);
    }
  }

  /** From power-up, then: a flag is up if and only if something raised it and nothing cleared it after. */
  lemma UpFromPowerUpIff(stuckMs: nat, ops: seq<Op>, b: nat)
    ensures b in Run(PowerUp(stuckMs), ops).irq <==> RaisedAndKept(PowerUp(stuckMs), ops, b)
  {
    PowerUpBooked(stuckMs);
    hide Run, PowerUp, Booked, RaisedAndKept;
    UpIff(PowerUp(stuckMs), ops, b);
  }

  /** Latching: from any point of a run, a flag that is up stays up until a ClearIrqStatus names it. */
  lemma {:induction false} Latched(r: Radio, ops: seq<Op>, k: nat, b: nat)
    requires Booked(r) && k <= |ops|
    requires b in Run(r, ops[..k]).irq && NotClearedFrom(ops, k, b)
    ensures b in Run(r, ops).irq
  {
    hide Run, RaisedAndKept, ClearMask, Booked;
    var rest := ops[k..];
    assert ops[..k] + rest == ops;
    RunConcat(r, ops[..k], rest);
    RunKeepsBooked(r, ops[..k]);
    UpIff(Run(r, ops[..k]), rest, b);
    forall j | 0 <= j < |rest| ensures b !in ClearMask(rest[j]) {
      assert rest[j] == ops[k + j];
    }
  }

  // ---- how often the preamble detector can fire ----

  function Onsets(r: Radio, ops: seq<Op>): nat {
    if ops == [] then 0
    else
      var n := |ops| - 1;
      Onsets(r, ops[..n]) + if ops[n] == ChannelBusy(true) && !Run(r, ops[..n]).air.busy then 1 else 0
  }

  function PreambleClears(ops: seq<Op>): nat {
    if ops == [] then 0
    else
      var n := |ops| - 1;
      PreambleClears(ops[..n]) + if PREAMBLE in ClearMask(ops[n]) then 1 else 0
  }

  /** 1 while the detector is waiting on a signal it has not reported. */
  function Armed(r: Radio): nat {
    if r.air.busy && !r.air.preambleRaised then 1 else 0
  }

  lemma StepRaises(r: Radio, op: Op)
    requires Booked(r)
    ensures Step(r, op).preambleRaises + Armed(Step(r, op))
              <= r.preambleRaises + Armed(r)
                 + (if op == ChannelBusy(true) && !r.air.busy then 1 else 0)
                 + (if PREAMBLE in ClearMask(op) then 1 else 0)
  {
    hide TickTo, WriteAt, BandwidthHz, Decode, Outgoing;
    if op.Tick? {
      TickRaises(r, op.at);
    }
  }

  lemma TickRaises(r: Radio, at: nat)
    requires Booked(r)
    ensures TickTo(r, at).preambleRaises + Armed(TickTo(r, at)) == r.preambleRaises + Armed(r)
  {
    hide WriteAt, Heard, Kept;
  }

  /** Every preamble report answers to a busy onset or to a ClearIrqStatus naming the preamble bit. */
  lemma {:induction false} RaisesBounded(r: Radio, ops: seq<Op>)
    requires Booked(r)
    ensures Run(r, ops).preambleRaises + Armed(Run(r, ops))
              <= r.preambleRaises + Armed(r) + Onsets(r, ops) + PreambleClears(ops)
    decreases |ops|
  {
    hide Step, ClearMask, Armed, Booked;
    if ops != [] {
      var n := |ops| - 1;
      RaisesBounded(r, ops[..n]);
      RunKeepsBooked(r, ops[..n]);
      StepRaises(Run(r, ops[..n]), ops[n]);
    }
  }
}
