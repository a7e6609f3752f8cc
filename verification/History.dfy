/**
 * What the chip is, from nothing but what has happened to it: its mode from the last command that moves it, its clock
 * from the last tick, the channel from the last report, the signal from the last measurement, the front end from the
 * last level of its line, the busy time from the ticks. Opcodes and bits are written as the datasheet's numbers.
 */
module History {
  import opened Bytes
  import opened Radio

  predicate Issues(op: Op, opcodes: set<int>) {
    op.Command? && op.out != [] && op.out[0] in opcodes
  }

  // ---- the mode ----

  /** SetSleep, SetStandby, SetRx, SetTx, SetCad: the commands that move the mode. */
  predicate Moves(op: Op) {
    Issues(op, {0x84, 0x80, 0x82, 0x83, 0xC5})
  }

  ghost predicate NoneFrom(ops: seq<Op>, k: nat, p: Op -> bool) {
    forall j :: k <= j < |ops| ==> !p(ops[j])
  }

  ghost predicate Finished(ops: seq<Op>, k: nat) {
    exists j :: k <= j < |ops| && ops[j].TransmitFinished?
  }

  lemma StepUnmoved(r: Radio, op: Op)
    requires !Moves(op)
    ensures Step(r, op).mode == if r.mode == Tx && op.TransmitFinished? then Standby else r.mode
  {
    hide TickTo, Apply, Decode;
    if op.Tick? {
      TickUnmoved(r, op.at);
    } else if op.Command? && op.out != [] {
      CommandUnmoved(r, op.out);
    }
  }

  lemma TickUnmoved(r: Radio, at: nat)
    ensures TickTo(r, at).mode == r.mode
  {
    hide WriteAt, Kept, Heard;
  }

  lemma CommandUnmoved(r: Radio, out: seq<byte>)
    requires out != [] && out[0] !in {0x84, 0x80, 0x82, 0x83, 0xC5}
    ensures Apply(r, Decode(out)).mode == r.mode
  {
    hide WriteAt, BandwidthHz, Outgoing, Register, PllToHz, Word, Signed;
  }

  /** With no command that moves it, only the end of a transmission does, and only out of transmitting. */
  lemma {:induction false} ModeUnmoved(r: Radio, ops: seq<Op>)
    requires NoneFrom(ops, 0, Moves)
    ensures Run(r, ops).mode == if r.mode == Tx && Finished(ops, 0) then Standby else r.mode
    decreases |ops|
  {
    hide Step, Moves;
    if ops != [] {
      var n := |ops| - 1;
      var front := ops[..n];
      ModeUnmoved(r, front);
      StepUnmoved(Run(r, front), ops[n]);
      if Finished(ops, 0) && !ops[n].TransmitFinished? {
        var j :| 0 <= j < |ops| && ops[j].TransmitFinished?;
        assert front[j] == ops[j];
      }
      if Finished(front, 0) {
        var j :| 0 <= j < |front| && front[j].TransmitFinished?;
        assert ops[j] == front[j];
      }
    }
  }

  lemma CommandMoves(r: Radio, out: seq<byte>)
    requires out != [] && out[0] in {0x84, 0x80, 0x82, 0x83, 0xC5}
    ensures Exec(r, out).mode == if out[0] == 0x82 then Rx else if out[0] == 0x83 then Tx else Standby
  {
    hide WriteAt, Outgoing;
  }

  /** The mode after any run in which some command moves it, by the last that does, at position k: receiving after
      SetRx, transmitting after SetTx until the transmission is reported finished, and in standby otherwise. Ticks,
      frames, reports and other commands move nothing. */
  lemma ModeIsLastMove(r: Radio, ops: seq<Op>, k: nat)
    requires k < |ops| && Moves(ops[k]) && NoneFrom(ops, k + 1, Moves)
    ensures var mode, opcode := Run(r, ops).mode, ops[k].out[0];
            && (mode == Rx <==> opcode == 0x82)
            && (mode == Tx <==> opcode == 0x83 && !Finished(ops, k + 1))
            && (mode == Standby <==> opcode in {0x80, 0x84, 0xC5} || (opcode == 0x83 && Finished(ops, k + 1)))
  {
    hide Run, Exec;
    var m, rest := Run(r, ops[..k + 1]), ops[k + 1..];
    RunNext(r, ops, k);
    CommandMoves(Run(r, ops[..k]), ops[k].out);
    assert ops[..k + 1] + rest == ops;
    RunConcat(r, ops[..k + 1], rest);
    forall j | 0 <= j < |rest| ensures !Moves(rest[j]) {
      assert rest[j] == ops[k + 1 + j];
    }
    ModeUnmoved(m, rest);
    if Finished(ops, k + 1) {
      var j :| k + 1 <= j < |ops| && ops[j].TransmitFinished?;
      assert rest[j - k - 1] == ops[j];
    }
    if Finished(rest, 0) {
      var j :| 0 <= j < |rest| && rest[j].TransmitFinished?;
      assert ops[k + 1 + j] == rest[j];
    }
  }

  // ---- clock, channel, measurement, front end ----

  /** The part of the chip that the simulator sets directly. */
  datatype Reported = Reported(now: nat, busy: bool, since: nat, rssi: byte, snr: byte, line: bool,
                               atTx: bool, hasTransmitted: bool)

  function View(r: Radio): Reported {
    Reported(r.now, r.air.busy, r.air.since, r.rssi, r.snr, r.fem.enabled, r.fem.atTx, r.fem.hasTransmitted)
  }

  /** What one operation reports of it. A busy report sets the time of the signal only when the channel was quiet. */
  function Report(v: Reported, op: Op): Reported {
    match op
    case Tick(at) => v.(now := at)
    case ChannelBusy(busy) => if busy && !v.busy then v.(busy := true, since := v.now) else v.(busy := busy)
    case LastSignal(rssi, snr) => v.(rssi := rssi, snr := snr)
    case Fem(on) => v.(line := on)
    case Command(out) => if out != [] && out[0] == 0x83 then v.(atTx := v.line, hasTransmitted := true) else v
    case _ => v
  }

  lemma StepReports(r: Radio, op: Op)
    ensures View(Step(r, op)) == Report(View(r), op)
  {
    hide TickTo, Apply, Decode;
    if op.Tick? {
      TickReports(r, op.at);
    } else if op.Command? && op.out != [] {
      CommandReports(r, op.out);
    }
  }

  lemma TickReports(r: Radio, at: nat)
    ensures View(TickTo(r, at)) == View(r).(now := at)
  {
    hide WriteAt, Kept, Heard;
  }

  lemma CommandReports(r: Radio, out: seq<byte>)
    requires out != []
    ensures View(Apply(r, Decode(out))) == Report(View(r), Command(out))
  {
    OnlyOneTransmits(out);
    if out[0] != 0x83 {
      hide Decode;
      ActionReports(r, Decode(out));
    }
  }

  lemma OnlyOneTransmits(out: seq<byte>)
    requires out != []
    ensures Decode(out).StartTransmit? <==> out[0] == 0x83
  {
    hide Register, PllToHz, Word, Signed;
  }

  lemma ActionReports(r: Radio, a: Action)
    requires !a.StartTransmit?
    ensures View(Apply(r, a)) == View(r)
  {
    hide WriteAt, BandwidthHz;
  }

  /** The clock is where the last tick put it. */
  lemma {:induction false} ClockIsLastTick(r: Radio, ops: seq<Op>, k: nat)
    requires k < |ops| && ops[k].Tick? && forall j :: k < j < |ops| ==> !ops[j].Tick?
    ensures Run(r, ops).now == ops[k].at
    decreases |ops|
  {
    hide Step;
    var n := |ops| - 1;
    StepReports(Run(r, ops[..n]), ops[n]);
    if k < n {
      ClockIsLastTick(r, ops[..n], k);
    }
  }

  /** What the chip says of signal strength and quality is what was last measured. */
  lemma {:induction false} SignalIsLastMeasured(r: Radio, ops: seq<Op>, k: nat)
    requires k < |ops| && ops[k].LastSignal? && forall j :: k < j < |ops| ==> !ops[j].LastSignal?
    ensures Run(r, ops).rssi == ops[k].rssi && Run(r, ops).snr == ops[k].snr
    decreases |ops|
  {
    hide Step;
    var n := |ops| - 1;
    StepReports(Run(r, ops[..n]), ops[n]);
    if k < n {
      SignalIsLastMeasured(r, ops[..n], k);
    }
  }

  /** A signal began when a quiet channel was first reported busy, and stays on the air from then until it is reported
      quiet: further busy reports, commands and modes notwithstanding. */
  lemma {:induction false} SignalSinceOnset(r: Radio, ops: seq<Op>, k: nat)
    requires k < |ops| && ops[k] == ChannelBusy(true) && !Run(r, ops[..k]).air.busy
    requires forall j :: k < j < |ops| ==> ops[j] != ChannelBusy(false)
    ensures Run(r, ops).air.busy && Run(r, ops).air.since == Run(r, ops[..k]).now
    decreases |ops|
  {
    hide Step;
    var n := |ops| - 1;
    StepReports(Run(r, ops[..n]), ops[n]);
    if k < n {
      assert ops[..n][..k] == ops[..k];
      SignalSinceOnset(r, ops[..n], k);
    }
  }

  /** And a channel last reported quiet is quiet. */
  lemma {:induction false} QuietIsLastReported(r: Radio, ops: seq<Op>, k: nat)
    requires k < |ops| && ops[k] == ChannelBusy(false) && forall j :: k < j < |ops| ==> !ops[j].ChannelBusy?
    ensures !Run(r, ops).air.busy
    decreases |ops|
  {
    hide Step;
    var n := |ops| - 1;
    StepReports(Run(r, ops[..n]), ops[n]);
    if k < n {
      QuietIsLastReported(r, ops[..n], k);
    }
  }

  /** The front end's line is at the level it was last driven to. */
  lemma {:induction false} LineIsLastDriven(r: Radio, ops: seq<Op>, k: nat)
    requires k < |ops| && ops[k].Fem? && forall j :: k < j < |ops| ==> !ops[j].Fem?
    ensures Run(r, ops).fem.enabled == ops[k].on
    decreases |ops|
  {
    hide Step;
    var n := |ops| - 1;
    StepReports(Run(r, ops[..n]), ops[n]);
    if k < n {
      LineIsLastDriven(r, ops[..n], k);
    }
  }

  /** And what is kept of it for the record is its level at the last SetTx, whatever it did after. */
  lemma {:induction false} LineAtLastTransmit(r: Radio, ops: seq<Op>, k: nat)
    requires k < |ops| && Issues(ops[k], {0x83}) && forall j :: k < j < |ops| ==> !Issues(ops[j], {0x83})
    ensures Run(r, ops).fem.hasTransmitted && Run(r, ops).fem.atTx == Run(r, ops[..k]).fem.enabled
    decreases |ops|
  {
    hide Step;
    var n := |ops| - 1;
    StepReports(Run(r, ops[..n]), ops[n]);
    if k < n {
      assert ops[..n][..k] == ops[..k];
      LineAtLastTransmit(r, ops[..n], k);
    }
  }

  /** A chip that has not transmitted says so until the first SetTx. */
  lemma {:induction false} NotYetTransmitted(r: Radio, ops: seq<Op>)
    requires !r.fem.hasTransmitted
    ensures Run(r, ops).fem.hasTransmitted <==> exists k :: 0 <= k < |ops| && Issues(ops[k], {0x83})
    decreases |ops|
  {
    hide Step, Issues;
    if ops != [] {
      var n := |ops| - 1;
      NotYetTransmitted(r, ops[..n]);
      StepTransmits(Run(r, ops[..n]), ops[n]);
      if k :| 0 <= k < n && Issues(ops[..n][k], {0x83}) {
        assert Issues(ops[k], {0x83});
      }
      if k :| 0 <= k < n && Issues(ops[k], {0x83}) {
        assert Issues(ops[..n][k], {0x83});
      }
    }
  }

  lemma StepTransmits(r: Radio, op: Op)
    ensures Step(r, op).fem.hasTransmitted <==> r.fem.hasTransmitted || Issues(op, {0x83})
  {
    hide Step;
    StepReports(r, op);
  }

  // ---- busy time ----

  /** Preamble or header flag up. */
  predicate FlagUp(r: Radio) {
    2 in r.irq || 4 in r.irq
  }

  /** Time spent with a flag up, tick by tick: whatever lies between a tick and the one before it counts if a flag was
      up just before the later one. */
  function TimeFlagged(r: Radio, ops: seq<Op>): nat {
    if ops == [] then 0
    else
      var n := |ops| - 1;
      var m := Run(r, ops[..n]);
      TimeFlagged(r, ops[..n]) + if ops[n].Tick? && FlagUp(m) && ops[n].at > m.now then ops[n].at - m.now else 0
  }

  /** The busy time is exactly that, for ticks of any size, forward or back, and for a chip ticked to where its clock
      stands. */
  lemma {:induction false} BusyTimeIsTimeFlagged(r: Radio, ops: seq<Op>)
    requires r.lastBusyTick == r.now
    ensures var e := Run(r, ops);
            e.busyMs == r.busyMs + TimeFlagged(r, ops) && e.lastBusyTick == e.now
    decreases |ops|
  {
    hide Step;
    if ops != [] {
      BusyTimeIsTimeFlagged(r, ops[..|ops| - 1]);
      StepAccrues(Run(r, ops[..|ops| - 1]), ops[|ops| - 1]);
    }
  }

  lemma StepAccrues(r: Radio, op: Op)
    requires r.lastBusyTick == r.now
    ensures var e := Step(r, op);
            && e.lastBusyTick == e.now
            && e.busyMs == r.busyMs + if op.Tick? && FlagUp(r) && op.at > r.now then op.at - r.now else 0
  {
    hide TickTo, Apply, Decode;
    if op.Tick? {
      TickAccrues(r, op.at);
    } else if op.Command? && op.out != [] {
      ActionAccrues(r, Decode(op.out));
    }
  }

  lemma TickAccrues(r: Radio, at: nat)
    requires r.lastBusyTick == r.now
    ensures var e := TickTo(r, at);
            && e.lastBusyTick == e.now == at
            && e.busyMs == r.busyMs + if FlagUp(r) && at > r.now then at - r.now else 0
  {
    hide WriteAt, Kept, Heard;
  }

  lemma ActionAccrues(r: Radio, a: Action)
    ensures var e := Apply(r, a); e.lastBusyTick == r.lastBusyTick && e.now == r.now && e.busyMs == r.busyMs
  {
    hide WriteAt, BandwidthHz, Outgoing;
  }

  // ---- the fault's period ----

  /** The period of the fault is the last one set. */
  lemma {:induction false} PeriodIsLastSet(r: Radio, ops: seq<Op>, k: nat)
    requires k < |ops| && ops[k].StuckIrq? && forall j :: k < j < |ops| ==> !ops[j].StuckIrq?
    ensures Run(r, ops).fault.stuckMs == ops[k].ms
    decreases |ops|
  {
    hide Step;
    var n := |ops| - 1;
    StepPeriod(Run(r, ops[..n]), ops[n]);
    if k < n {
      PeriodIsLastSet(r, ops[..n], k);
    }
  }

  lemma StepPeriod(r: Radio, op: Op)
    ensures Step(r, op).fault.stuckMs == if op.StuckIrq? then op.ms else r.fault.stuckMs
    ensures op.StuckIrq? ==> Step(r, op) == r.(fault := Fault(op.ms, r.fault.nextSpurious, r.fault.raises))
  {
    hide TickTo, Apply, Decode;
    if op.Tick? {
      TickPeriod(r, op.at);
    } else if op.Command? && op.out != [] {
      ActionPeriod(r, Decode(op.out));
    }
  }

  lemma TickPeriod(r: Radio, at: nat)
    ensures TickTo(r, at).fault.stuckMs == r.fault.stuckMs
  {
    hide WriteAt, Kept, Heard;
  }

  lemma ActionPeriod(r: Radio, a: Action)
    ensures Apply(r, a).fault == r.fault && Apply(r, a).preambleRaises == r.preambleRaises
  {
    hide WriteAt, BandwidthHz, Outgoing;
  }

  // ---- reports of a preamble ----

  /** Ticks at which the detector reports: receiving, a signal on the air, not reported yet and heard for four
      symbols. */
  function Detections(r: Radio, ops: seq<Op>): nat {
    if ops == [] then 0
    else
      var n := |ops| - 1;
      var m := Run(r, ops[..n]);
      Detections(r, ops[..n])
      + if ops[n].Tick? && m.mode == Rx && m.air.busy && !m.air.preambleRaised && Heard(m, ops[n].at, 4) then 1 else 0
  }

  /** The count of preamble reports is exactly that, and nothing resets it. */
  lemma {:induction false} RaisesAreDetections(r: Radio, ops: seq<Op>)
    ensures Run(r, ops).preambleRaises == r.preambleRaises + Detections(r, ops)
    decreases |ops|
  {
    hide Step, Heard;
    if ops != [] {
      RaisesAreDetections(r, ops[..|ops| - 1]);
      StepDetects(Run(r, ops[..|ops| - 1]), ops[|ops| - 1]);
    }
  }

  lemma StepDetects(r: Radio, op: Op)
    ensures Step(r, op).preambleRaises == r.preambleRaises
              + if op.Tick? && r.mode == Rx && r.air.busy && !r.air.preambleRaised && Heard(r, op.at, 4) then 1 else 0
  {
    hide TickTo, Apply, Decode, Heard;
    if op.Tick? {
      TickDetects(r, op.at);
    } else if op.Command? && op.out != [] {
      ActionPeriod(r, Decode(op.out));
    }
  }

  lemma TickDetects(r: Radio, at: nat)
    ensures TickTo(r, at).preambleRaises == r.preambleRaises
              + if r.mode == Rx && r.air.busy && !r.air.preambleRaised && Heard(r, at, 4) then 1 else 0
  {
    hide WriteAt, Kept, SinceBusy, Bandwidth, Pow2;
  }
}
