/**
 * The two programs side by side, a bridge around a native node and a server for an emulated one,
 * fed the same messages by the engine. Their chips go through the same, message by message, with
 * one exception.
 */
module Tandem {
  import opened Bytes
  import opened Radio
  import opened Clocking
  import opened Irq
  import opened NodeClock
  import opened Stats
  import opened Wire
  import opened Bridge
  import Server = RadioServer

  /** The kinds of message the bridge takes. Any other closes it, and the server skips them. */
  predicate Taken(kind: byte) {
    kind in {Server.FRAME, Server.TX_DONE_MSG, Server.CHANNEL_BUSY, Server.TICK, Server.CONSOLE_IN, ORIGINATE}
  }

  /** A message that does not move time does the same to the chip of a native node and to the chip of an emulated one,
      with the one exception of an empty busy report on a busy channel: to the bridge that is an idle channel, to the
      server it is nothing. The bridge closes exactly on the kinds it does not take, and on those the server does
      nothing whatever. */
  lemma SameMessageIff(s: Server.Server, n: Node, m: Message, fw: Firmware)
    requires s.chip == n.hal.chip && Booked(n.hal.chip.radio) && !(m.kind == Server.TICK && |m.payload| == 4)
    ensures var o := Receive(n, m, fw);
            && (Server.Engine(s, m).chip == NodeOf(o).hal.chip <==>
                  !(m.kind == Server.CHANNEL_BUSY && m.payload == [] && n.hal.chip.radio.air.busy))
            && (o.Closed? <==> !Taken(m.kind))
            && (o.Closed? ==> NodeOf(o) == n && Server.Engine(s, m) == s)
            && NodeOf(o).toEngine == n.toEngine && Server.Engine(s, m).toEngine == s.toEngine
  {
    hide FinishTransmit;
    if m.kind == Server.CHANNEL_BUSY && m.payload == [] {
      assert BusyChanged(n.hal.chip.radio, false) == n.hal.chip.radio <==> !n.hal.chip.radio.air.busy;
    }
  }

  /** The exception is met: after one busy report an empty one makes two equal chips different. */
  lemma EmptyBusyReport(fw: Firmware)
    ensures var busy := Message(Server.CHANNEL_BUSY, [1]);
            var s := Server.Engine(Server.PowerUpServer(0), busy);
            var n := NodeOf(Receive(PowerUpNode(0, 0), busy, fw));
            var empty := Message(Server.CHANNEL_BUSY, []);
            && s.chip == n.hal.chip
            && Server.Engine(s, empty).chip.radio.air.busy && !NodeOf(Receive(n, empty, fw)).hal.chip.radio.air.busy
  {
    hide Ticked, PowerUp;
  }

  // ---- over time ----

  /** Firmware that does nothing in its loop: what is left is what the programs do themselves. */
  ghost predicate Idle(fw: Firmware) {
    forall k: nat :: fw.loop(k) == []
  }

  /** The same message, but for the last byte of the statistics, where only the server answers. */
  predicate SameMessage(a: Message, b: Message) {
    a.kind == b.kind && if a.kind == Server.RADIO_STATS then SameButLast(a.payload, b.payload) else a == b
  }

  predicate SameButLast(a: seq<byte>, b: seq<byte>) {
    |a| == |b| > 0 && a[..|a| - 1] == b[..|a| - 1]
  }

  predicate SameTraffic(a: seq<Message>, b: seq<Message>) {
    |a| == |b| && forall k :: 0 <= k < |a| ==> SameMessage(a[k], b[k])
  }

  /** Same chip, same time, same messages sent; no handler attached, nothing printed, no time overspent. */
  predicate InTandem(s: Server.Server, n: Node) {
    && s.chip == n.hal.chip && s.simMillis == n.simMillis && n.hal.localUs <= 1000 * n.simMillis
    && !n.handler.attached && n.console == [] && SameTraffic(s.toEngine, n.toEngine)
  }

  /** One pass of the bridge is one settling of the server. */
  lemma PassInTandem(s: Server.Server, n: Node, fw: Firmware)
    requires Idle(fw) && InTandem(s, n)
    ensures InTandem(Server.Settle(s), Pass(n, fw))
  {
    hide StepChip, SameMessage;
    var b := BeginTickNow(n);
    assert ServiceIrq(b, fw) == b;
    assert RunLoop(b, fw) == b.(loops := b.loops + 1);
    assert b.hal.localUs == 1000 * n.simMillis && b.hal.localUs / 1000 == n.simMillis;
    assert b.hal.chip == Server.OnChip(s, Direct(Tick(s.simMillis))).chip;
    var o := b.hal.chip.radio.outbox;
    assert o.waiting ==> SameMessage(Message(Server.FRAME, o.frame), Message(Server.FRAME, o.frame)) by {
      FrameIsSame(o.frame);
    }
  }

  lemma FrameIsSame(frame: seq<byte>)
    ensures SameMessage(Message(Server.FRAME, frame), Message(Server.FRAME, frame))
  {
  }

  lemma {:induction false} AdvanceInTandem(s: Server.Server, n: Node, at: nat, fw: Firmware)
    requires Idle(fw) && InTandem(s, n)
    ensures InTandem(Server.AdvanceTo(s, at), AdvanceTo(n, at, fw))
    decreases at - n.simMillis
  {
    hide Server.Settle, Pass, SameTraffic, Idle;
    if n.simMillis < at {
      var t, m := s.(simMillis := s.simMillis + 1), NextMs(n);
      PassInTandem(t, m, fw);
      Server.SettleKeepsTime(t);
      AdvanceInTandem(Server.Settle(t), Pass(m, fw), at, fw);
    }
  }

  lemma ReportInTandem(c: Chip, payload: seq<byte>)
    ensures SameTraffic([Server.StatsMessage(c), Message(Server.ACK, payload)],
                        [StatsMessage(c), Message(Server.ACK, payload)])
  {
    hide Body;
    var a, b := Server.StatsMessage(c).payload, StatsMessage(c).payload;
    assert a[..|a| - 1] == Body(c) == b[..|a| - 1];
  }

  lemma TrafficConcat(a: seq<Message>, b: seq<Message>, c: seq<Message>, d: seq<Message>)
    requires SameTraffic(a, b) && SameTraffic(c, d)
    ensures SameTraffic(a + c, b + d)
  {
    hide SameMessage;
  }

  lemma TickInTandem(s: Server.Server, n: Node, payload: seq<byte>, fw: Firmware)
    requires Idle(fw) && InTandem(s, n) && |payload| == 4
    ensures InTandem(Server.Engine(s, Message(Server.TICK, payload)), Ticked(n, payload, fw))
  {
    hide Server.Settle, Server.AdvanceTo, Pass, AdvanceTo, SameTraffic, Idle, Body;
    var at := Server.TickTarget(payload);
    AdvanceInTandem(s, n, at, fw);
    var t, p := Server.Settle(Server.AdvanceTo(s, at)), Pass(AdvanceTo(n, at, fw), fw);
    PassInTandem(Server.AdvanceTo(s, at), AdvanceTo(n, at, fw), fw);
    ReportInTandem(t.chip, payload);
    TrafficConcat(t.toEngine, p.toEngine, [Server.StatsMessage(t.chip), Message(Server.ACK, payload)],
                  [StatsMessage(t.chip), Message(Server.ACK, payload)]);
  }

  /** With firmware that does nothing the exception is the only one among all messages, ticks included: two programs in
      tandem stay so, clocks, frames, statistics and acknowledgements and all, if and only if the message is not an
      empty busy report on a busy channel. */
  lemma StaysInTandemIff(s: Server.Server, n: Node, m: Message, fw: Firmware)
    requires Idle(fw) && InTandem(s, n) && Booked(n.hal.chip.radio)
    ensures InTandem(Server.Engine(s, m), NodeOf(Receive(n, m, fw))) <==>
              !(m.kind == Server.CHANNEL_BUSY && m.payload == [] && n.hal.chip.radio.air.busy)
  {
    if m.kind == Server.TICK && |m.payload| == 4 {
      TickInTandem(s, n, m.payload, fw);
      hide Server.Engine, Ticked, InTandem;
      assert m == Message(Server.TICK, m.payload);
    } else {
      SameMessageIff(s, n, m, fw);
      hide StepChip, SameTraffic, Ticked, Idle;
    }
  }

  predicate EmptyReport(m: Message) {
    m.kind == Server.CHANNEL_BUSY && m.payload == []
  }

  /** So a native node and an emulated one, both idle, are one radio from power-up on: after any messages that the
      bridge takes, empty busy reports aside, they are in tandem. */
  lemma {:induction false} IdleNodesInTandem(stuckMs: nat, rtc: nat, ms: seq<Message>, fw: Firmware)
    requires Idle(fw) && fw.setup == [] && forall k :: 0 <= k < |ms| ==> Taken(ms[k].kind) && !EmptyReport(ms[k])
    ensures var o := Session(PowerUpNode(stuckMs, rtc), ms, fw);
            && o.Running? && InTandem(Server.EngineAll(Server.PowerUpServer(stuckMs), ms), o.n)
            && Booked(o.n.hal.chip.radio)
    decreases |ms|
  {
    if ms == [] {
      StartInTandem(stuckMs, rtc, fw);
    } else {
      hide Idle, InTandem, Booked, Server.Engine, PowerUpNode, Server.PowerUpServer, Receive;
      var front, m := ms[..|ms| - 1], ms[|ms| - 1];
      IdleNodesInTandem(stuckMs, rtc, front, fw);
      var s := Server.EngineAll(Server.PowerUpServer(stuckMs), front);
      var n := Session(PowerUpNode(stuckMs, rtc), front, fw).n;
      StaysInTandemIff(s, n, m, fw);
      TakenRuns(n, m, fw);
      ServerKeepsBooked(s, n, m, fw);
    }
  }

  lemma TakenRuns(n: Node, m: Message, fw: Firmware)
    requires Taken(m.kind)
    ensures Receive(n, m, fw).Running?
  {
    hide Ticked, StepHal;
  }

  /** The chip's bookkeeping, carried by whichever of the two programs. */
  lemma ServerKeepsBooked(s: Server.Server, n: Node, m: Message, fw: Firmware)
    requires InTandem(s, n) && Booked(n.hal.chip.radio)
    requires InTandem(Server.Engine(s, m), NodeOf(Receive(n, m, fw)))
    ensures Booked(NodeOf(Receive(n, m, fw)).hal.chip.radio)
  {
    hide Server.Engine, Receive, Booked, Run, SameTraffic;
    var x := Server.FromEngine(m);
    assert Server.Serve(s, x) == Server.Engine(s, m);
    InputKeepsBooked(s, x);
  }

  lemma InputKeepsBooked(s: Server.Server, x: Server.Input)
    requires Booked(s.chip.radio) && x.FromEngine?
    ensures Booked(Server.Serve(s, x).chip.radio)
  {
    hide Server.Settle, Server.AdvanceTo, StepChip, Booked, Server.StatsMessage;
    var m := x.m;
    if m.kind == Server.TICK && |m.payload| == 4 {
      AdvanceKeepsBooked(s, Server.TickTarget(m.payload));
      SettleKeepsBooked(Server.AdvanceTo(s, Server.TickTarget(m.payload)));
    } else if m.kind == Server.FRAME {
      EventKeepsBooked(s.chip, PushFrame(m.payload));
    } else if m.kind == Server.TX_DONE_MSG {
      EventKeepsBooked(s.chip, TransmitFinished);
    } else if m.kind == Server.CHANNEL_BUSY && |m.payload| >= 1 {
      EventKeepsBooked(s.chip, ChannelBusy(m.payload[0] != 0));
    }
  }

  lemma EventKeepsBooked(c: Chip, op: Op)
    requires Booked(c.radio)
    ensures Booked(StepChip(c, Direct(op)).radio)
  {
    EventIsOps(c, Direct(op));
    hide StepChip, Booked;
    RunKeepsBooked(c.radio, Clocking.OpsOf(c.link, Direct(op)));
  }

  lemma SettleKeepsBooked(s: Server.Server)
    requires Booked(s.chip.radio)
    ensures Booked(Server.Settle(s).chip.radio) && Server.Settle(s).simMillis == s.simMillis
  {
    hide StepChip, Booked;
    EventKeepsBooked(s.chip, Tick(s.simMillis));
    EventKeepsBooked(StepChip(s.chip, Direct(Tick(s.simMillis))), Drain);
  }

  lemma {:induction false} AdvanceKeepsBooked(s: Server.Server, at: nat)
    requires Booked(s.chip.radio)
    ensures Booked(Server.AdvanceTo(s, at).chip.radio)
    decreases at - s.simMillis
  {
    hide Server.Settle, Booked;
    if s.simMillis < at {
      var t := s.(simMillis := s.simMillis + 1);
      SettleKeepsBooked(t);
      AdvanceKeepsBooked(Server.Settle(t), at);
    }
  }

  lemma StartInTandem(stuckMs: nat, rtc: nat, fw: Firmware)
    requires fw.setup == []
    ensures var n := Session(PowerUpNode(stuckMs, rtc), [], fw).n;
            InTandem(Server.PowerUpServer(stuckMs), n) && Booked(n.hal.chip.radio)
  {
    PowerUpBooked(stuckMs);
    var p := PowerUpNode(stuckMs, rtc);
    assert PerformAll(p, []) == p;
    assert !PowerUp(stuckMs).outbox.waiting;
    hide PowerUp;
  }
}
