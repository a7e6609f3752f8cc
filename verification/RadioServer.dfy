/**
 * The radio model between an emulator and the engine: one chip, reached from two sides.
 * SPI bytes from the emulator and messages from the engine interleave in any order.
 *
 * Main results: a streamed command is atomic under every interleaving; the frames on the
 * wire and the clock of the chip are those of a run of Radio; messages of unknown kinds
 * leave no trace.
 */
module RadioServer {
  import opened Arithmetic
  import opened Bytes
  import opened Radio
  import opened Clocking
  import opened Device
  import opened Faults
  import opened Frames
  import opened Stats
  import Transmit
  import opened Wire

  // Kinds of message.
  const FRAME: byte := 0x01
  const TICK: byte := 0x02
  const ACK: byte := 0x03
  const TX_DONE_MSG: byte := 0x04
  const CONSOLE_IN: byte := 0x06
  const CHANNEL_BUSY: byte := 0x08
  const RADIO_STATS: byte := 0x09

  datatype Server = Server(chip: Chip, simMillis: nat, toEngine: seq<Message>)

  datatype Input =
    | FromEngine(m: Message)
    | CsAssert | CsRelease | Xfer(out: byte)      // the emulator's SPI controller
    | ReadBusy | ReadIrq | SetFem(level: byte)    // and its pins
    | UnknownTag                                  // after which the program ends

  function PowerUpServer(stuckMs: nat): Server {
    Server(PowerUpChip(stuckMs), 0, [])
  }

  function OnChip(s: Server, e: Event): Server {
    s.(chip := StepChip(s.chip, e))
  }

  /** Write out the frame waiting in the chip, if there is one. */
  function Drained(s: Server): Server {
    var o := s.chip.radio.outbox;
    OnChip(s, Direct(Drain)).(toEngine := s.toEngine + if o.waiting then [Message(FRAME, o.frame)] else [])
  }

  /** Tick the chip to where the simulated clock stands, and drain. */
  function Settle(s: Server): Server {
    Drained(OnChip(s, Direct(Tick(s.simMillis))))
  }

  /** A millisecond at a time. */
  function AdvanceTo(s: Server, at: nat): Server
    decreases at - s.simMillis
  {
    if s.simMillis < at then AdvanceTo(Settle(s.(simMillis := s.simMillis + 1)), at) else s
  }

  function TickTarget(payload: seq<byte>): nat
    requires |payload| == 4
  {
    0x1_0000 * Word(payload[0], payload[1]) + Word(payload[2], payload[3])
  }

  function StatsMessage(c: Chip): Message {
    Message(RADIO_STATS, Body(c) + [FemState(c.radio.fem)])
  }

  function Engine(s: Server, m: Message): Server {
    if m.kind == FRAME then OnChip(s, Direct(PushFrame(m.payload)))
    else if m.kind == TX_DONE_MSG then OnChip(s, Direct(TransmitFinished))
    else if m.kind == CHANNEL_BUSY && |m.payload| >= 1 then OnChip(s, Direct(ChannelBusy(m.payload[0] != 0)))
    else if m.kind == TICK && |m.payload| == 4 then
      var t := Settle(AdvanceTo(s, TickTarget(m.payload)));
      t.(toEngine := t.toEngine + [StatsMessage(t.chip), Message(ACK, m.payload)])
    else s
  }

  function Serve(s: Server, x: Input): Server {
    match x
    case FromEngine(m) => Engine(s, m)
    case CsAssert => OnChip(s, Select)
    case CsRelease => OnChip(s, Release)
    case Xfer(out) => OnChip(s, Clock(out))
    case ReadBusy => s
    case ReadIrq => s
    case SetFem(level) => OnChip(s, Direct(Fem(level != 0)))
    case UnknownTag => s
  }

  /** What the emulator is told. */
  function ToEmulator(s: Server, x: Input): seq<byte> {
    match x
    case Xfer(out) => Answer(s.chip, Clock(out))
    case ReadBusy => [0]
    case ReadIrq => [if IrqAsserted(s.chip.radio) then 1 else 0]
    case _ => []
  }

  function ServeAll(s: Server, xs: seq<Input>): Server {
    if xs == [] then s else Serve(ServeAll(s, xs[..|xs| - 1]), xs[|xs| - 1])
  }

  lemma {:induction false} ServeConcat(s: Server, a: seq<Input>, b: seq<Input>)
    ensures ServeAll(s, a + b) == ServeAll(ServeAll(s, a), b)
    decreases |b|
  {
    hide Serve;
    if b == [] {
      assert a + b == a;
    } else {
      assert (a + b)[..|a + b| - 1] == a + b[..|b| - 1];
      ServeConcat(s, a, b[..|b| - 1]);
    }
  }

  // ---- what every input keeps ----

  /** Every message so far, and the frame that may go next, fits the length field of the framing. */
  predicate Writable(s: Server) {
    Transmit.ShortFrame(s.chip.radio) && Fits(s.toEngine)
  }

  /** Every operation keeps the sizes of the memories, and every message it sends fits. */
  ghost predicate Keeps(s: Server, t: Server) {
    (Sized(s.chip.radio) ==> Sized(t.chip.radio)) && (Writable(s) ==> Writable(t))
  }

  lemma EventKeeps(s: Server, e: Event)
    ensures Keeps(s, OnChip(s, e)) && OnChip(s, e).simMillis == s.simMillis
  {
    hide StepChip, Sized, Transmit.ShortFrame, Fits;
    EventIsOps(s.chip, e);
    var ops := Clocking.OpsOf(s.chip.link, e);
    if Sized(s.chip.radio) {
      OpsKeepSize(s.chip.radio, ops);
    }
    if Transmit.ShortFrame(s.chip.radio) {
      Transmit.RunKeepsShort(s.chip.radio, ops);
    }
  }

  /** Sending more that fits. */
  lemma SendKeeps(s: Server, t: Server, more: seq<Message>)
    requires Keeps(s, t) && (Writable(s) ==> Fits(more))
    ensures Keeps(s, t.(toEngine := t.toEngine + more))
  {
    hide Sized, Transmit.ShortFrame;
  }

  lemma SettleKeeps(s: Server)
    ensures Keeps(s, Settle(s)) && Settle(s).simMillis == s.simMillis
  {
    hide StepChip, Sized, Fits;
    EventKeeps(s, Direct(Tick(s.simMillis)));
    var t := OnChip(s, Direct(Tick(s.simMillis)));
    EventKeeps(t, Direct(Drain));
    var o := t.chip.radio.outbox;
    var sent := if o.waiting then [Message(FRAME, o.frame)] else [];
    assert Transmit.ShortFrame(t.chip.radio) ==> Fits(sent) by {
      FrameFits(o.frame);
      NothingFits();
    }
    SendKeeps(s, OnChip(t, Direct(Drain)), sent);
  }

  lemma FrameFits(frame: seq<byte>)
    ensures |frame| <= MAX_PAYLOAD ==> Fits([Message(FRAME, frame)])
  {
  }

  lemma NothingFits()
    ensures Fits([])
  {
  }

  lemma {:induction false} AdvanceKeeps(s: Server, at: nat)
    ensures Keeps(s, AdvanceTo(s, at))
    decreases at - s.simMillis
  {
    hide Settle, Sized, Writable;
    if s.simMillis < at {
      var t := s.(simMillis := s.simMillis + 1);
      SettleKeeps(t);
      AdvanceKeeps(Settle(t), at);
      assert Keeps(s, t) by {
        TimeKeeps(s, t);
      }
    }
  }

  lemma TimeKeeps(s: Server, t: Server)
    requires t == s.(simMillis := t.simMillis)
    ensures Keeps(s, t)
  {
  }

  lemma ReportFits(c: Chip, payload: seq<byte>)
    requires |payload| == 4
    ensures Fits([StatsMessage(c), Message(ACK, payload)])
  {
    hide Body;
  }

  lemma InputKeeps(s: Server, x: Input)
    ensures Keeps(s, Serve(s, x))
  {
    hide OnChip, Settle, AdvanceTo, Sized, Writable, StatsMessage;
    match x {
      case FromEngine(m) =>
        if m.kind == TICK && |m.payload| == 4 {
          var a := AdvanceTo(s, TickTarget(m.payload));
          AdvanceKeeps(s, TickTarget(m.payload));
          SettleKeeps(a);
          ReportFits(Settle(a).chip, m.payload);
          SendKeeps(s, Settle(a), [StatsMessage(Settle(a).chip), Message(ACK, m.payload)]);
        } else if m.kind == FRAME {
          EventKeeps(s, Direct(PushFrame(m.payload)));
        } else if m.kind == TX_DONE_MSG {
          EventKeeps(s, Direct(TransmitFinished));
        } else if m.kind == CHANNEL_BUSY && |m.payload| >= 1 {
          EventKeeps(s, Direct(ChannelBusy(m.payload[0] != 0)));
        }
      case CsAssert => EventKeeps(s, Select);
      case CsRelease => EventKeeps(s, Release);
      case Xfer(out) => EventKeeps(s, Clock(out));
      case SetFem(level) => EventKeeps(s, Direct(Fem(level != 0)));
      case _ =>
    }
  }

  lemma {:induction false} ServeAllKeeps(s: Server, xs: seq<Input>)
    ensures Keeps(s, ServeAll(s, xs))
    decreases |xs|
  {
    hide Serve, Sized, Writable;
    if xs != [] {
      ServeAllKeeps(s, xs[..|xs| - 1]);
      InputKeeps(ServeAll(s, xs[..|xs| - 1]), xs[|xs| - 1]);
    }
  }

  /** Whatever happens from power-up on, the bytes the server writes are read back by the engine as exactly the
      messages it sent: no payload ever outgrows the length field. */
  lemma EngineReadsAll(stuckMs: nat, xs: seq<Input>)
    ensures var sent := ServeAll(PowerUpServer(stuckMs), xs).toEngine;
            DecodeAll(EncodeAll(sent)) == (sent, [])
  {
    var s := PowerUpServer(stuckMs);
    ServeAllKeeps(s, xs);
    assert Writable(s);
    hide ServeAll, PowerUpServer, Transmit.ShortFrame, Fits;
    RoundTripIff(ServeAll(s, xs).toEngine);
  }

  // ---- a streamed command is atomic ----

  function WithLink(s: Server, l: Link): Server {
    s.(chip := s.chip.(link := l))
  }

  /** Everything that can happen between two bytes of one transaction. */
  predicate Background(x: Input) {
    x.FromEngine? || x.ReadBusy? || x.ReadIrq? || x.SetFem?
  }

  function BackgroundOf(xs: seq<Input>): seq<Input> {
    if xs == [] then []
    else BackgroundOf(xs[..|xs| - 1]) + if Background(xs[|xs| - 1]) then [xs[|xs| - 1]] else []
  }

  function BytesOf(xs: seq<Input>): seq<byte> {
    if xs == [] then []
    else BytesOf(xs[..|xs| - 1]) + if xs[|xs| - 1].Xfer? then [xs[|xs| - 1].out] else []
  }

  function Xfers(cmd: seq<byte>): (xs: seq<Input>)
    ensures |xs| == |cmd|
  {
    seq(|cmd|, i requires 0 <= i < |cmd| => Xfer(cmd[i]))
  }

  predicate MidTransaction(xs: seq<Input>) {
    forall k :: 0 <= k < |xs| ==> Background(xs[k]) || xs[k].Xfer?
  }

  lemma SettleIgnoresLink(s: Server, l: Link)
    ensures Settle(WithLink(s, l)) == WithLink(Settle(s), l)
  {
    hide TickTo;
  }

  lemma {:induction false} AdvanceIgnoresLink(s: Server, at: nat, l: Link)
    ensures AdvanceTo(WithLink(s, l), at) == WithLink(AdvanceTo(s, at), l)
    decreases at - s.simMillis
  {
    hide Settle;
    if s.simMillis < at {
      var t := s.(simMillis := s.simMillis + 1);
      SettleIgnoresLink(t, l);
      assert Settle(t).simMillis == t.simMillis by {
        SettleKeepsTime(t);
      }
      AdvanceIgnoresLink(Settle(t), at, l);
      assert WithLink(s, l).(simMillis := s.simMillis + 1) == WithLink(t, l);
    }
  }

  lemma SettleKeepsTime(s: Server)
    ensures Settle(s).simMillis == s.simMillis
  {
    hide StepChip;
  }

  lemma BackgroundIgnoresLink(s: Server, x: Input, l: Link)
    requires Background(x)
    ensures Serve(WithLink(s, l), x) == WithLink(Serve(s, x), l)
  {
    hide Settle, AdvanceTo, Step, Body, Exec;
    if x.FromEngine? && x.m.kind == TICK && |x.m.payload| == 4 {
      var at := TickTarget(x.m.payload);
      AdvanceIgnoresLink(s, at, l);
      SettleIgnoresLink(AdvanceTo(s, at), l);
      BodyIgnoresLink(Settle(AdvanceTo(s, at)).chip, l);
    }
  }

  lemma BodyIgnoresLink(c: Chip, l: Link)
    ensures Body(c.(link := l)) == Body(c)
  {
  }

  const OPEN: Link := Link([], true)

  predicate Writes(cmd: seq<byte>) {
    cmd == [] || !ReturnsData(cmd[0])
  }

  /** Between the edges of a transaction that reads nothing, the bytes only pile up. */
  lemma {:induction false} MidWrite(s: Server, xs: seq<Input>)
    requires MidTransaction(xs) && Writes(BytesOf(xs))
    ensures ServeAll(WithLink(s, OPEN), xs) == WithLink(ServeAll(s, BackgroundOf(xs)), Link(BytesOf(xs), true))
    decreases |xs|
  {
    hide Serve, StepChip, ReturnsData;
    if xs != [] {
      var n := |xs| - 1;
      var front, x := xs[..n], xs[n];
      MidWrite(s, front);
      var t := ServeAll(s, BackgroundOf(front));
      var l := Link(BytesOf(front), true);
      if Background(x) {
        BackgroundIgnoresLink(t, x, l);
        OneMore(s, BackgroundOf(front), x);
      } else {
        assert x == Xfer(x.out) && BackgroundOf(xs) == BackgroundOf(front);
        CollectWrite(t, l, x.out);
      }
    }
  }

  lemma OneMore(s: Server, xs: seq<Input>, x: Input)
    ensures ServeAll(s, xs + [x]) == Serve(ServeAll(s, xs), x)
  {
    hide Serve;
    assert (xs + [x])[..|xs|] == xs;
  }

  lemma CollectWrite(t: Server, l: Link, out: byte)
    requires l.open && Writes(l.txn + [out])
    ensures Serve(WithLink(t, l), Xfer(out)) == WithLink(t, Link(l.txn + [out], true))
  {
    hide Exec, Step;
  }

  lemma {:induction false} OnlyXfers(cmd: seq<byte>)
    ensures BackgroundOf(Xfers(cmd)) == [] && BytesOf(Xfers(cmd)) == cmd && MidTransaction(Xfers(cmd))
    decreases |cmd|
  {
    if cmd != [] {
      var n := |cmd| - 1;
      OnlyXfers(cmd[..n]);
      assert Xfers(cmd)[..n] == Xfers(cmd[..n]);
      assert cmd == cmd[..n] + [cmd[n]];
    }
  }

  /** A transaction that reads nothing is atomic: with ticks, frames, busy reports, ends of transmission and
      front-end changes interleaved between its bytes in any way, all of it ends exactly as if they had come
      first and the whole command after, acted on at chip-select release. */
  lemma AtomicWrite(s: Server, xs: seq<Input>)
    requires MidTransaction(xs) && Writes(BytesOf(xs))
    ensures var cmd, t := BytesOf(xs), ServeAll(s, BackgroundOf(xs));
            var e := ServeAll(s, [CsAssert] + xs + [CsRelease]);
            && e == ServeAll(s, BackgroundOf(xs) + ([CsAssert] + Xfers(cmd) + [CsRelease]))
            && e == t.(chip := Chip(Exec(t.chip.radio, Cut(cmd)), t.chip.irqReads, t.chip.busyReads, IDLE))
  {
    hide Serve, Exec, StepChip;
    var cmd, t := BytesOf(xs), ServeAll(s, BackgroundOf(xs));
    Framed(s, xs);
    MidWrite(s, xs);
    Released(t, cmd);
    ServeConcat(s, BackgroundOf(xs), [CsAssert] + Xfers(cmd) + [CsRelease]);
    OnlyXfers(cmd);
    Framed(t, Xfers(cmd));
    MidWrite(t, Xfers(cmd));
  }

  lemma Framed(s: Server, xs: seq<Input>)
    ensures ServeAll(s, [CsAssert] + xs + [CsRelease]) == Serve(ServeAll(WithLink(s, OPEN), xs), CsRelease)
  {
    assert Serve(s, CsAssert) == WithLink(s, OPEN);
    hide Serve;
    OneMore(s, [CsAssert] + xs, CsRelease);
    ServeConcat(s, [CsAssert], xs);
    OneMore(s, [], CsAssert);
    assert [] + [CsAssert] == [CsAssert];
  }

  lemma Released(t: Server, cmd: seq<byte>)
    requires Writes(cmd)
    ensures Serve(WithLink(t, Link(cmd, true)), CsRelease)
              == t.(chip := Chip(Exec(t.chip.radio, Cut(cmd)), t.chip.irqReads, t.chip.busyReads, IDLE))
  {
    var c := t.chip.(link := Link(cmd, true));
    if cmd != [] {
      EdgeEffects(c);
    }
    hide Apply, Decode, Step;
  }

  // ---- transactions that read ----

  /** Records that differ in their first eight bytes at most, which are the two read counters. */
  predicate SameButReads(a: seq<byte>, b: seq<byte>) {
    |a| == |b| && forall i :: 8 <= i < |a| ==> a[i] == b[i]
  }

  /** The same messages to the engine, but for the read counters in the statistics. */
  predicate SameTraffic(a: seq<Message>, b: seq<Message>) {
    |a| == |b| && forall k :: 0 <= k < |a| ==>
      && a[k].kind == b[k].kind
      && (if a[k].kind == RADIO_STATS then SameButReads(a[k].payload, b[k].payload) else a[k] == b[k])
  }

  /** The same report of chips that differ in their read counters at most. */
  lemma ReportAlike(a: Chip, b: Chip)
    requires a.radio == b.radio
    ensures SameButReads(StatsMessage(a).payload, StatsMessage(b).payload)
  {
    AfterReads(a);
    AfterReads(b);
    BodyIgnoresLink(b.(irqReads := 0, busyReads := 0), a.link);
    hide Body, FemState;
    assert a.(irqReads := 0, busyReads := 0) == b.(irqReads := 0, busyReads := 0).(link := a.link);
    forall i | 8 <= i < RECORD - 1 ensures Body(a)[i] == Body(b)[i] {
      assert Body(a)[i] == Body(a)[8..][i - 8] && Body(b)[i] == Body(b)[8..][i - 8];
    }
  }

  lemma TrafficConcat(a: seq<Message>, b: seq<Message>, c: seq<Message>, d: seq<Message>)
    requires SameTraffic(a, b) && SameTraffic(c, d)
    ensures SameTraffic(a + c, b + d)
  {
    hide SameButReads;
  }

  /** Nothing but the read counters, and the record that reports them, tells the two apart. */
  predicate Alike(a: Server, b: Server) {
    a.chip.radio == b.chip.radio && a.simMillis == b.simMillis && SameTraffic(a.toEngine, b.toEngine)
  }

  lemma SettleAlike(a: Server, b: Server)
    requires Alike(a, b)
    ensures Alike(Settle(a), Settle(b))
  {
    hide TickTo;
  }

  lemma {:induction false} AdvanceAlike(a: Server, b: Server, at: nat)
    requires Alike(a, b)
    ensures Alike(AdvanceTo(a, at), AdvanceTo(b, at))
    decreases at - a.simMillis
  {
    hide Settle, SameTraffic;
    if a.simMillis < at {
      var a1, b1 := a.(simMillis := a.simMillis + 1), b.(simMillis := b.simMillis + 1);
      SettleAlike(a1, b1);
      SettleKeepsTime(a1);
      AdvanceAlike(Settle(a1), Settle(b1), at);
    }
  }

  lemma BackgroundAlike(a: Server, b: Server, x: Input)
    requires Alike(a, b) && Background(x)
    ensures Alike(Serve(a, x), Serve(b, x))
  {
    hide Settle, AdvanceTo, Step, Exec, StatsMessage, SameTraffic;
    if x.FromEngine? && x.m.kind == TICK && |x.m.payload| == 4 {
      AdvanceAlike(a, b, TickTarget(x.m.payload));
      var c, d := AdvanceTo(a, TickTarget(x.m.payload)), AdvanceTo(b, TickTarget(x.m.payload));
      SettleAlike(c, d);
      TickReportAlike(Settle(c).chip, Settle(d).chip, x.m.payload);
      TrafficConcat(Settle(c).toEngine, Settle(d).toEngine,
                    [StatsMessage(Settle(c).chip), Message(ACK, x.m.payload)],
                    [StatsMessage(Settle(d).chip), Message(ACK, x.m.payload)]);
    }
  }

  lemma TickReportAlike(a: Chip, b: Chip, payload: seq<byte>)
    requires a.radio == b.radio
    ensures SameTraffic([StatsMessage(a), Message(ACK, payload)], [StatsMessage(b), Message(ACK, payload)])
  {
    ReportAlike(a, b);
    hide Body, SameButReads;
  }

  /** Whether a byte is clocked as part of a read of the IRQ register, given the ones before it. */
  predicate Polls(txn: seq<byte>) {
    txn != [] && txn[0] == GET_IRQ_STATUS
  }

  /** How many of the bytes so far were clocked as part of a read of the IRQ register. */
  function PollsOf(xs: seq<Input>): nat {
    if Polls(BytesOf(xs)) then |BytesOf(xs)| else 0
  }

  /** And how many of them while a busy flag was up. */
  function BusyPollsOf(s: Server, xs: seq<Input>): nat {
    if xs == [] then 0
    else
      var front, x := xs[..|xs| - 1], xs[|xs| - 1];
      BusyPollsOf(s, front)
      + if x.Xfer? && Polls(BytesOf(xs)) && ShowsBusy(ServeAll(s, BackgroundOf(front)).chip.radio.irq) then 1 else 0
  }

  /** Nothing between the bytes touches the read counters. */
  lemma BackgroundReadsNothing(s: Server, x: Input)
    requires Background(x)
    ensures SameReads(s, Serve(s, x))
  {
    hide Settle, AdvanceTo, Step, Exec, StatsMessage;
    if x.FromEngine? && x.m.kind == TICK && |x.m.payload| == 4 {
      AdvanceReadsNothing(s, TickTarget(x.m.payload));
      SettleReadsNothing(AdvanceTo(s, TickTarget(x.m.payload)));
    }
  }

  predicate SameReads(a: Server, b: Server) {
    a.chip.irqReads == b.chip.irqReads && a.chip.busyReads == b.chip.busyReads
  }

  lemma SettleReadsNothing(s: Server)
    ensures SameReads(s, Settle(s)) && Settle(s).simMillis == s.simMillis
  {
    hide Step;
  }

  lemma {:induction false} AdvanceReadsNothing(s: Server, at: nat)
    ensures SameReads(s, AdvanceTo(s, at))
    decreases at - s.simMillis
  {
    hide Settle;
    if s.simMillis < at {
      var t := s.(simMillis := s.simMillis + 1);
      SettleReadsNothing(t);
      AdvanceReadsNothing(Settle(t), at);
    }
  }

  lemma {:induction false} BackgroundsReadNothing(s: Server, xs: seq<Input>)
    ensures SameReads(s, ServeAll(s, BackgroundOf(xs)))
    decreases |xs|
  {
    hide Serve;
    if xs != [] {
      var front, x := xs[..|xs| - 1], xs[|xs| - 1];
      BackgroundsReadNothing(s, front);
      if Background(x) {
        OneMore(s, BackgroundOf(front), x);
        BackgroundReadsNothing(ServeAll(s, BackgroundOf(front)), x);
      } else {
        assert BackgroundOf(xs) == BackgroundOf(front);
      }
    }
  }

  lemma XferCounts(a: Server, out: byte)
    ensures var e, p := Serve(a, Xfer(out)).chip, Polls(Extended(a.chip.link, out).txn);
            && e.irqReads == a.chip.irqReads + (if p then 1 else 0)
            && e.busyReads == a.chip.busyReads + if p && ShowsBusy(a.chip.radio.irq) then 1 else 0
  {
    ClockByteEffect(a.chip, out);
    hide StepChip;
  }

  /** The bytes of a transaction are counted as reads one by one, whatever happens between them. */
  lemma {:induction false} MidTransactionCounts(s: Server, xs: seq<Input>)
    requires MidTransaction(xs)
    ensures var m := ServeAll(WithLink(s, OPEN), xs);
            && m.chip.irqReads == s.chip.irqReads + PollsOf(xs)
            && m.chip.busyReads == s.chip.busyReads + BusyPollsOf(s, xs)
    decreases |xs|
  {
    hide Serve, Alike, ShowsBusy;
    if xs != [] {
      var front, x := xs[..|xs| - 1], xs[|xs| - 1];
      MidTransactionCounts(s, front);
      MidTransactionAlike(s, front);
      var m := ServeAll(WithLink(s, OPEN), front);
      if Background(x) {
        BackgroundReadsNothing(m, x);
        assert BytesOf(xs) == BytesOf(front);
      } else {
        assert x == Xfer(x.out);
        XferCounts(m, x.out);
        SameRadio(m, ServeAll(s, BackgroundOf(front)));
      }
    }
  }

  lemma SameRadio(a: Server, b: Server)
    requires Alike(a, b)
    ensures a.chip.radio == b.chip.radio
  {
  }

  lemma XferAlike(a: Server, b: Server, out: byte)
    requires Alike(a, b)
    ensures Alike(Serve(a, Xfer(out)), b) && Serve(a, Xfer(out)).chip.link == Extended(a.chip.link, out)
  {
    ClockByteEffect(a.chip, out);
    hide StepChip;
  }

  /** Reading bytes change nothing that is not a read counter, whatever happens between them. */
  lemma {:induction false} MidTransactionAlike(s: Server, xs: seq<Input>)
    requires MidTransaction(xs)
    ensures var m := ServeAll(WithLink(s, OPEN), xs);
            Alike(m, ServeAll(s, BackgroundOf(xs))) && m.chip.link == Link(BytesOf(xs), true)
    decreases |xs|
  {
    hide Serve, Alike;
    if xs == [] {
      assert Alike(WithLink(s, OPEN), s) by {
        Reflexive(s);
      }
    } else {
      var n := |xs| - 1;
      var front, x := xs[..n], xs[n];
      MidTransactionAlike(s, front);
      var m, t := ServeAll(WithLink(s, OPEN), front), ServeAll(s, BackgroundOf(front));
      if Background(x) {
        BackgroundAlike(m, t, x);
        OneMore(s, BackgroundOf(front), x);
        BackgroundIgnoresLink(m, x, m.chip.link);
      } else {
        assert x == Xfer(x.out) && BackgroundOf(xs) == BackgroundOf(front);
        XferAlike(m, t, x.out);
      }
    }
  }

  lemma Reflexive(s: Server)
    ensures Alike(WithLink(s, OPEN), s)
  {
  }

  /** A transaction that reads is transparent: it leaves the radio, the clock and the traffic exactly as
      the interleaved events alone would have, no transaction open, and the read counters up by one for each byte
      of a GetIrqStatus, the second of them for those clocked with a busy flag up. */
  lemma AtomicRead(s: Server, xs: seq<Input>)
    requires MidTransaction(xs) && !Writes(BytesOf(xs))
    ensures var e := ServeAll(s, [CsAssert] + xs + [CsRelease]);
            && Alike(e, ServeAll(s, BackgroundOf(xs))) && e.chip.link == IDLE
            && e.chip.irqReads == s.chip.irqReads + PollsOf(xs)
            && e.chip.busyReads == s.chip.busyReads + BusyPollsOf(s, xs)
  {
    MidTransactionAlike(s, xs);
    MidTransactionCounts(s, xs);
    Framed(s, xs);
    hide Step, RunCommand, ServeAll, PollsOf, BusyPollsOf;
  }

  /** And each byte it reads is the whole command's answer in the state at that byte, or, at a position answered
      apart, what the byte form gives there: after xs, with `out` being clocked and `rest` of the command still
      to come. */
  lemma ReadByte(s: Server, xs: seq<Input>, out: byte, rest: seq<byte>)
    requires MidTransaction(xs) && Sized(s.chip.radio)
    ensures var m, r := ServeAll(WithLink(s, OPEN), xs), ServeAll(s, BackgroundOf(xs)).chip.radio;
            var i := |BytesOf(xs)|;
            var cmd := BytesOf(xs) + [out] + rest;
            var told := ToEmulator(m, Xfer(out));
            |told| == 1 && Related(r, cmd, i, Reply(r, cmd)[i], told[0])
  {
    var t := ServeAll(s, BackgroundOf(xs));
    var i, cmd := |BytesOf(xs)|, BytesOf(xs) + [out] + rest;
    MidTransactionAlike(s, xs);
    ServeAllKeeps(s, BackgroundOf(xs));
    hide ServeAll, StreamReply, ReplyAt, AnsweredApart, OneSidedValue, Sized;
    ReplyByteApart(t.chip.radio, cmd, i);
    assert cmd[..i + 1] == BytesOf(xs) + [out];
  }

  // ---- the server's run is a run of the radio ----

  function AdvanceOps(simMillis: nat, at: nat): seq<Op>
    decreases at - simMillis
  {
    if simMillis < at then [Tick(simMillis + 1), Drain] + AdvanceOps(simMillis + 1, at) else []
  }

  /** What one input does to the radio. */
  function OpsOf(s: Server, x: Input): seq<Op> {
    match x
    case FromEngine(m) =>
      if m.kind == FRAME then [PushFrame(m.payload)]
      else if m.kind == TX_DONE_MSG then [TransmitFinished]
      else if m.kind == CHANNEL_BUSY && |m.payload| >= 1 then [ChannelBusy(m.payload[0] != 0)]
      else if m.kind == TICK && |m.payload| == 4 then
        var at := TickTarget(m.payload);
        AdvanceOps(s.simMillis, at) + [Tick(Max(s.simMillis, at)), Drain]
      else []
    case CsRelease => Clocking.OpsOf(s.chip.link, Release)
    case SetFem(level) => [Fem(level != 0)]
    case _ => []
  }

  function Ops(s: Server, xs: seq<Input>): seq<Op> {
    if xs == [] then []
    else
      var n := |xs| - 1;
      Ops(s, xs[..n]) + OpsOf(ServeAll(s, xs[..n]), xs[n])
  }

  /** The frames among the messages. */
  function FramesOf(ms: seq<Message>): seq<Frame> {
    if ms == [] then []
    else FramesOf(ms[..|ms| - 1]) + if ms[|ms| - 1].kind == FRAME then [ms[|ms| - 1].payload] else []
  }

  lemma {:induction false} FramesConcat(a: seq<Message>, b: seq<Message>)
    ensures FramesOf(a + b) == FramesOf(a) + FramesOf(b)
    decreases |b|
  {
    if b == [] {
      assert a + b == a;
    } else {
      assert (a + b)[..|a + b| - 1] == a + b[..|b| - 1];
      FramesConcat(a, b[..|b| - 1]);
    }
  }

  /** The radio's clock never runs ahead of the simulation's. */
  predicate Behind(s: Server) {
    s.chip.radio.now <= s.simMillis
  }

  /** s has become t by way of these operations of the radio: same state, time only forward, the fault left
      alone, and on the wire exactly what the radio's drains put there. */
  ghost predicate Became(s: Server, ops: seq<Op>, t: Server) {
    var r := s.chip.radio;
    && t.chip.radio == Run(r, ops) && Forward(r, ops) && FaultFixed(ops)
    && FramesOf(t.toEngine) == FramesOf(s.toEngine) + Transmit.Wire(r, ops)
    && (Behind(s) ==> Behind(t)) && s.simMillis <= t.simMillis
  }

  lemma BecameNothing(s: Server, t: Server)
    requires t.chip.radio == s.chip.radio && t.simMillis == s.simMillis && t.toEngine == s.toEngine
    ensures Became(s, [], t)
  {
  }

  lemma BecameConcat(s: Server, a: seq<Op>, t: Server, b: seq<Op>, u: Server)
    requires Became(s, a, t) && Became(t, b, u)
    ensures Became(s, a + b, u)
  {
    hide Run, Forward, FaultFixed, Transmit.Wire, FramesOf, Behind;
    RunConcat(s.chip.radio, a, b);
    ForwardConcat(s.chip.radio, a, b);
    FixedConcat(a, b);
    Transmit.WireConcat(s.chip.radio, a, b);
  }

  lemma FixedConcat(a: seq<Op>, b: seq<Op>)
    requires FaultFixed(a) && FaultFixed(b)
    ensures FaultFixed(a + b)
  {
  }

  /** One operation that neither ticks nor drains. */
  lemma BecameByOne(s: Server, op: Op)
    requires !op.Tick? && !op.Drain? && !op.StuckIrq?
    ensures Became(s, [op], s.(chip := s.chip.(radio := Step(s.chip.radio, op))))
  {
    StepNow(s.chip.radio, op);
    Transmit.WireOfOne(s.chip.radio, op);
    RunNext(s.chip.radio, [op], 0);
    assert [op][..1] == [op];
    hide Step, FramesOf;
  }

  lemma SettleBecame(s: Server)
    requires Behind(s)
    ensures Became(s, [Tick(s.simMillis), Drain], Settle(s)) && Settle(s).simMillis == s.simMillis
  {
    var r := s.chip.radio;
    var ops := [Tick(s.simMillis), Drain];
    var m := Step(r, Tick(s.simMillis));
    assert ops[..1] == [Tick(s.simMillis)] && ops[..2] == ops && ops[..0] == [];
    RunNext(r, ops, 0);
    RunNext(r, ops, 1);
    StepNow(r, Tick(s.simMillis));
    StepNow(m, Drain);
    Transmit.WireOfOne(r, Tick(s.simMillis));
    Transmit.WireOfOne(m, Drain);
    Transmit.WireConcat(r, [Tick(s.simMillis)], [Drain]);
    assert [Tick(s.simMillis)] + [Drain] == ops;
    FramesConcat(s.toEngine, if m.outbox.waiting then [Message(FRAME, m.outbox.frame)] else []);
    hide TickTo, Run;
  }

  lemma {:induction false} AdvanceBecame(s: Server, at: nat)
    requires Behind(s)
    ensures Became(s, AdvanceOps(s.simMillis, at), AdvanceTo(s, at))
    ensures AdvanceTo(s, at).simMillis == Max(s.simMillis, at) && Behind(AdvanceTo(s, at))
    decreases at - s.simMillis
  {
    hide Settle, Step;
    if s.simMillis < at {
      var t := s.(simMillis := s.simMillis + 1);
      SettleBecame(t);
      var u := Settle(t);
      AdvanceBecame(u, at);
      var ops := [Tick(t.simMillis), Drain];
      assert Became(s, ops, u);
      BecameConcat(s, ops, u, AdvanceOps(u.simMillis, at), AdvanceTo(u, at));
    } else {
      BecameNothing(s, s);
    }
  }

  lemma TickBecame(s: Server, m: Message)
    requires Behind(s) && m.kind == TICK && |m.payload| == 4
    ensures Became(s, OpsOf(s, FromEngine(m)), Engine(s, m))
  {
    hide Settle, AdvanceTo, AdvanceOps, Behind, Step, FramesOf, Body;
    var at := TickTarget(m.payload);
    var t := AdvanceTo(s, at);
    AdvanceBecame(s, at);
    SettleBecame(t);
    var last := [Tick(t.simMillis), Drain];
    BecameConcat(s, AdvanceOps(s.simMillis, at), t, last, Settle(t));
    var u := Settle(t);
    var report := [StatsMessage(u.chip), Message(ACK, m.payload)];
    ReportHasNoFrames(StatsMessage(u.chip), Message(ACK, m.payload));
    FramesConcat(u.toEngine, report);
    assert Behind(u.(toEngine := u.toEngine + report)) == Behind(u) by {
      BehindIsTime(u, u.(toEngine := u.toEngine + report));
    }
  }

  lemma BehindIsTime(s: Server, t: Server)
    requires s.chip == t.chip && s.simMillis == t.simMillis
    ensures Behind(s) == Behind(t)
  {
  }

  lemma ReportHasNoFrames(a: Message, b: Message)
    requires a.kind != FRAME && b.kind != FRAME
    ensures FramesOf([a, b]) == []
  {
    assert [a, b][..1] == [a] && [a][..0] == [];
    assert FramesOf([a]) == FramesOf([]) == [];
  }

  lemma InputBecame(s: Server, x: Input)
    requires Behind(s)
    ensures Became(s, OpsOf(s, x), Serve(s, x))
  {
    hide Step, AdvanceTo, Settle, AdvanceOps, Became, Apply, Behind;
    BecameNothing(s, s);
    match x {
      case FromEngine(m) =>
        if m.kind == TICK && |m.payload| == 4 {
          TickBecame(s, m);
        } else if m.kind == FRAME {
          BecameByOne(s, PushFrame(m.payload));
        } else if m.kind == TX_DONE_MSG {
          BecameByOne(s, TransmitFinished);
        } else if m.kind == CHANNEL_BUSY && |m.payload| >= 1 {
          BecameByOne(s, ChannelBusy(m.payload[0] != 0));
        }
      case SetFem(level) =>
        BecameByOne(s, Fem(level != 0));
      case Xfer(out) =>
        ClockByteEffect(s.chip, out);
        BecameNothing(s, Serve(s, x));
      case CsAssert =>
        BecameNothing(s, Serve(s, x));
      case CsRelease =>
        ReleaseBecame(s);
      case _ =>
    }
  }

  lemma ReleaseBecame(s: Server)
    requires Behind(s)
    ensures Became(s, Clocking.OpsOf(s.chip.link, Release), Serve(s, CsRelease))
  {
    var txn, t := s.chip.link.txn, Serve(s, CsRelease);
    if txn == [] || ReturnsData(txn[0]) {
      BecameNothing(s, t);
    } else {
      BecameByOne(s, Command(Cut(txn)));
      EdgeEffects(s.chip);
      hide Step, Exec;
      assert t.chip.radio == Step(s.chip.radio, Command(Cut(txn))) by {
        CommandStep(s.chip.radio, Cut(txn));
      }
    }
  }

  lemma CommandStep(r: Radio, out: seq<byte>)
    ensures Step(r, Command(out)) == Exec(r, out)
  {
    hide Exec;
  }

  /** Whatever the emulator and the engine do, in whatever order: the chip goes through a run of Radio in which
      time only moves forward, and the frames the engine gets are exactly what that run puts on the wire. */
  lemma {:induction false} ServerIsRun(s: Server, xs: seq<Input>)
    requires Behind(s)
    ensures Became(s, Ops(s, xs), ServeAll(s, xs)) && Behind(ServeAll(s, xs))
    decreases |xs|
  {
    hide Serve, OpsOf, Became;
    if xs == [] {
      BecameNothing(s, s);
    } else {
      var n := |xs| - 1;
      ServerIsRun(s, xs[..n]);
      var t := ServeAll(s, xs[..n]);
      InputBecame(t, xs[n]);
      BecameConcat(s, Ops(s, xs[..n]), t, OpsOf(t, xs[n]), Serve(t, xs[n]));
      BecameBehind(t, OpsOf(t, xs[n]), Serve(t, xs[n]));
    }
  }

  lemma BecameBehind(s: Server, ops: seq<Op>, t: Server)
    requires Became(s, ops, t) && Behind(s)
    ensures Behind(t)
  {
  }

  /** From power-up: the engine gets, slot by slot, the last frame committed in the slot; every frame if no slot
      had two; and the chip's counters stay within the simulated time. */
  lemma ServerFromPowerUp(stuckMs: nat, xs: seq<Input>)
    ensures var s := PowerUpServer(stuckMs);
            var r, ops, t := s.chip.radio, Ops(s, xs), ServeAll(s, xs);
            && FramesOf(t.toEngine) == Transmit.LastPerSlot(r, ops)
            && (Transmit.OnePerSlot(r, ops) ==>
                  FramesOf(t.toEngine) + Transmit.LastOf(Transmit.Slot(r, ops)) == Transmit.Commits(r, ops))
            && t.chip.radio.busyMs <= t.chip.radio.now <= t.simMillis
            && (stuckMs > 0 ==> t.chip.radio.fault.raises <= t.simMillis / stuckMs + 1)
  {
    hide ServeAll, Ops, Run, Transmit.LastPerSlot, Transmit.Wire, Transmit.Commits, Transmit.Slot;
    var s := PowerUpServer(stuckMs);
    var r, ops, t := s.chip.radio, Ops(s, xs), ServeAll(s, xs);
    ServerIsRun(s, xs);
    Transmit.WireIsLastPerSlot(r, ops);
    Transmit.LosslessIff(r, ops);
    if stuckMs > 0 {
      PowerUpInTime(stuckMs);
    }
    CountersInTime(r, ops, stuckMs);
    assert FramesOf(s.toEngine) == [];
    if stuckMs > 0 {
      QuotientGrows(t.chip.radio.now, t.simMillis, stuckMs);
    }
  }

  // ---- the shape of a tick ----

  /** One settling sends the waiting frame, if there is one, and leaves none waiting. */
  lemma SettleSends(s: Server)
    ensures exists frames :: |frames| <= 1 && AllOfKind(frames, FRAME) && Settle(s).toEngine == s.toEngine + frames
    ensures Settle(s).simMillis == s.simMillis && !Settle(s).chip.radio.outbox.waiting
  {
    hide StepChip;
    var t := OnChip(s, Direct(Tick(s.simMillis)));
    var o := t.chip.radio.outbox;
    var frames := if o.waiting then [Message(FRAME, o.frame)] else [];
    assert AllOfKind(frames, FRAME) && Settle(s).toEngine == s.toEngine + frames;
    NothingWaits(t.chip);
  }

  lemma NothingWaits(c: Chip)
    ensures !StepChip(c, Direct(Drain)).radio.outbox.waiting
  {
  }

  lemma {:induction false} AdvanceShape(s: Server, at: nat) returns (frames: seq<Message>)
    ensures var e := AdvanceTo(s, at);
            && e.simMillis == Max(s.simMillis, at) && e.toEngine == s.toEngine + frames
            && AllOfKind(frames, FRAME) && |frames| <= Max(0, at - s.simMillis)
    decreases at - s.simMillis
  {
    hide Settle;
    frames := [];
    if s.simMillis < at {
      var t := s.(simMillis := s.simMillis + 1);
      SettleSends(t);
      var first :| |first| <= 1 && AllOfKind(first, FRAME) && Settle(t).toEngine == t.toEngine + first;
      var rest := AdvanceShape(Settle(t), at);
      frames := first + rest;
    }
  }

  /** A tick to `at` ends at `at` unless the server was already past it, sends at most one frame per millisecond
      gone through and one more, then the statistics of the state it ends in, then one acknowledgement echoing
      `at`, and leaves no frame unsent. */
  lemma TickShape(s: Server, payload: seq<byte>) returns (frames: seq<Message>)
    requires |payload| == 4
    ensures var at, e := TickTarget(payload), Engine(s, Message(TICK, payload));
            && e.simMillis == Max(s.simMillis, at) && !e.chip.radio.outbox.waiting
            && e.toEngine == s.toEngine + frames + [StatsMessage(e.chip), Message(ACK, payload)]
            && AllOfKind(frames, FRAME) && |frames| <= Max(0, at - s.simMillis) + 1
  {
    hide Settle, Body, AdvanceTo;
    var at := TickTarget(payload);
    frames := AdvanceShape(s, at);
    var t := AdvanceTo(s, at);
    SettleSends(t);
    var last :| |last| <= 1 && AllOfKind(last, FRAME) && Settle(t).toEngine == t.toEngine + last;
    frames := frames + last;
  }

  /** The instant in a tick message is its four bytes, most significant first. */
  lemma TickLandsOn(s: Server, p: seq<byte>)
    requires |p| == 4
    ensures var e := Engine(s, Message(0x02, p));
            && e.simMillis
                 == Max(s.simMillis,
                        0x100_0000 * (p[0] as nat) + 0x1_0000 * (p[1] as nat) + 0x100 * (p[2] as nat) + p[3])
            && |e.toEngine| >= 2 && e.toEngine[|e.toEngine| - 1] == Message(0x03, p)
            && e.toEngine[|e.toEngine| - 2].kind == 0x09
  {
    var frames := TickShape(s, p);
    TargetIs(p);
    hide Engine, TickTarget;
  }

  /** The other messages of the engine, by their numbers. */
  lemma EngineByNumber(s: Server, p: seq<byte>)
    ensures Engine(s, Message(0x01, p)).chip.radio.inbox == s.chip.radio.inbox + [p]
    ensures s.chip.radio.mode == Tx ==>
              var r := Engine(s, Message(0x04, p)).chip.radio; r.mode == Standby && r.irq == s.chip.radio.irq + {0}
    ensures s.chip.radio.mode != Tx ==> Engine(s, Message(0x04, p)) == s
    ensures p != [] ==> (Engine(s, Message(0x08, p)).chip.radio.air.busy <==> p[0] != 0)
    ensures p == [] ==> Engine(s, Message(0x08, p)) == s
    ensures |p| != 4 ==> Engine(s, Message(0x02, p)) == s
  {
  }

  lemma TargetIs(p: seq<byte>)
    requires |p| == 4
    ensures TickTarget(p) == 0x100_0000 * (p[0] as nat) + 0x1_0000 * (p[1] as nat) + 0x100 * (p[2] as nat) + p[3]
  {
  }

  // ---- messages of unknown kinds ----

  predicate Known(m: Message) {
    m.kind == FRAME || m.kind == TX_DONE_MSG || m.kind == CHANNEL_BUSY || m.kind == TICK
  }

  function KnownOf(ms: seq<Message>): seq<Message> {
    if ms == [] then [] else KnownOf(ms[..|ms| - 1]) + if Known(ms[|ms| - 1]) then [ms[|ms| - 1]] else []
  }

  function EngineAll(s: Server, ms: seq<Message>): Server {
    if ms == [] then s else Engine(EngineAll(s, ms[..|ms| - 1]), ms[|ms| - 1])
  }

  lemma {:induction false} UnknownLeaveNoTrace(s: Server, ms: seq<Message>)
    ensures EngineAll(s, ms) == EngineAll(s, KnownOf(ms))
    decreases |ms|
  {
    hide Settle, AdvanceTo, OnChip, StatsMessage;
    if ms != [] {
      var n := |ms| - 1;
      UnknownLeaveNoTrace(s, ms[..n]);
      var known := KnownOf(ms[..n]);
      if Known(ms[n]) {
        assert (known + [ms[n]])[..|known|] == known;
      } else {
        assert KnownOf(ms) == known;
      }
    }
  }

  /** The byte stream of any messages that fit, unknown kinds and all, drives the server exactly as the known
      messages alone: the framing keeps it in step. */
  lemma StaysInStep(s: Server, ms: seq<Message>)
    requires Fits(ms)
    ensures DecodeAll(EncodeAll(ms)).1 == [] && EngineAll(s, DecodeAll(EncodeAll(ms)).0) == EngineAll(s, KnownOf(ms))
  {
    RoundTripIff(ms);
    UnknownLeaveNoTrace(s, ms);
  }

  // ---- the end of the program ----

  /** The inputs that are served: all before the first with an unknown tag. */
  function Served(xs: seq<Input>): seq<Input> {
    if xs == [] then []
    else
      var n := |xs| - 1;
      Served(xs[..n]) + if UnknownTag in xs then [] else [xs[n]]
  }

  lemma NothingServed(s: Server)
    ensures ServeAll(s, []) == s
  {
  }

  lemma ServeOne(s: Server, m: Message)
    ensures Serve(s, FromEngine(m)) == Engine(s, m)
  {
  }

  lemma ServedNext(s: Server, xs: seq<Input>, i: nat)
    requires i < |xs| && UnknownTag !in xs[..i]
    ensures ServeAll(s, Served(xs[..i + 1])) == Serve(ServeAll(s, Served(xs[..i])), xs[i])
    ensures UnknownTag in xs[..i + 1] <==> xs[i] == UnknownTag
  {
    hide ServeAll;
    assert xs[..i + 1] == xs[..i] + [xs[i]] && xs[..i + 1][..i] == xs[..i];
    if xs[i] == UnknownTag {
      assert Served(xs[..i + 1]) == Served(xs[..i]);
    } else {
      hide Serve;
      OneMore(s, Served(xs[..i]), xs[i]);
    }
  }

  lemma {:induction false} ServedEnds(xs: seq<Input>, i: nat)
    requires i <= |xs| && UnknownTag in xs[..i]
    ensures Served(xs) == Served(xs[..i]) && UnknownTag in xs
    decreases |xs|
  {
    if i < |xs| {
      assert xs[..|xs| - 1][..i] == xs[..i];
      ServedEnds(xs[..|xs| - 1], i);
    } else {
      assert xs[..i] == xs;
    }
  }

  // ---- the object ----

  class RadioServer {
    const chip: VirtualSX1262
    var simMillis: nat
    var toEngine: seq<Message>

    ghost predicate Valid()
      reads this, chip
    {
      chip.Valid()
    }

    ghost function State(): Server
      reads this, chip, chip.buffer, chip.regs
    {
      Server(chip.State(), simMillis, toEngine)
    }

    constructor (stuckMs: nat)
      ensures Valid() && fresh(chip) && fresh(chip.buffer) && fresh(chip.regs)
      ensures State() == PowerUpServer(stuckMs)
    {
      chip := new VirtualSX1262(stuckMs);
      simMillis, toEngine := 0, [];
    }

    method WriteMsg(kind: byte, payload: seq<byte>)
      modifies this`toEngine
      ensures toEngine == old(toEngine) + [Message(kind, payload)]
    {
      toEngine := toEngine + [Message(kind, payload)];
    }

    method DrainTx()
      requires Valid()
      modifies this`toEngine, chip
      ensures Valid() && State() == Drained(old(State()))
    {
      hide TickTo, Exec;
      if !chip.outbox.waiting {
        return;
      }
      var _, frame := chip.TakePending();
      WriteMsg(FRAME, frame);
    }

    method SettleNow()
      requires Valid()
      modifies this`toEngine, chip, chip.buffer
      ensures Valid() && State() == Settle(old(State()))
    {
      hide TickTo, Drained;
      chip.Tick(simMillis);
      DrainTx();
    }

    method WriteRadioStats()
      requires Valid()
      modifies this`toEngine
      ensures toEngine == old(toEngine) + [StatsMessage(chip.State())]
    {
      hide Body;
      var sb := ServerRecord(chip);
      WriteMsg(RADIO_STATS, sb[..]);
    }

    /** One message from the engine. */
    method ServiceBridge(m: Message)
      requires Valid()
      modifies this, chip, chip.buffer
      ensures Valid() && State() == Engine(old(State()), m)
    {
      hide Settle, TickTo, StatsMessage;
      if m.kind == FRAME {
        chip.PushFrame(m.payload);
      } else if m.kind == TX_DONE_MSG {
        chip.TransmitFinished();
      } else if m.kind == CHANNEL_BUSY {
        if |m.payload| >= 1 {
          chip.SetChannelBusy(m.payload[0] != 0);
        }
      } else if m.kind == TICK {
        if |m.payload| != 4 {
          return;
        }
        TickNow(m.payload);
      }
      // Console input belongs to the emulator's own serial port, and an unknown kind is skipped.
    }

    method StepMs()
      requires Valid()
      modifies this, chip, chip.buffer
      ensures Valid() && State() == Settle(old(State()).(simMillis := old(simMillis) + 1))
    {
      hide Settle;
      simMillis := simMillis + 1;
      assert State() == old(State()).(simMillis := old(simMillis) + 1);
      SettleNow();
    }

    method TickNow(payload: seq<byte>)
      requires Valid() && |payload| == 4
      modifies this, chip, chip.buffer
      ensures Valid() && State() == Engine(old(State()), Message(TICK, payload))
    {
      hide Settle, StatsMessage;
      var at := TickTarget(payload);
      while simMillis < at
        invariant Valid() && AdvanceTo(State(), at) == AdvanceTo(old(State()), at)
        decreases at - simMillis
      {
        SettleKeepsTime(State().(simMillis := simMillis + 1));
        StepMs();
      }
      SettleNow();
      Acknowledge(payload);
    }

    method Acknowledge(payload: seq<byte>)
      requires Valid()
      modifies this`toEngine
      ensures var s := old(State());
              State() == s.(toEngine := s.toEngine + [StatsMessage(s.chip), Message(ACK, payload)])
    {
      hide StatsMessage;
      WriteRadioStats();
      WriteMsg(ACK, payload);
    }

    /** One message from the emulator, and what it is told in return. */
    method ServiceEmulator(x: Input) returns (running: bool, reply: seq<byte>)
      requires Valid() && !x.FromEngine?
      modifies chip, chip.buffer, chip.regs
      ensures Valid() && State() == Serve(old(State()), x)
      ensures reply == ToEmulator(old(State()), x) && (running <==> !x.UnknownTag?)
    {
      hide Step, RunCommand;
      reply, running := [], true;
      match x {
        case CsAssert =>
          chip.BeginTransaction();
        case CsRelease =>
          chip.EndTransaction();
        case Xfer(out) =>
          var answer := chip.TransferByte(out);
          reply := [answer];
        case ReadBusy =>
          reply := [0];
        case ReadIrq =>
          reply := [if chip.IrqAsserted() then 1 else 0];
        case SetFem(level) =>
          chip.SetFemEnabled(level != 0);
        case UnknownTag =>
          running := false;
      }
    }

    /** The main program: messages of either side as they come, until one the emulator should not send. */
    method ServeUntilUnknown(xs: seq<Input>) returns (running: bool)
      requires Valid()
      modifies this, chip, chip.buffer, chip.regs
      ensures Valid() && State() == ServeAll(old(State()), Served(xs))
      ensures running <==> UnknownTag !in xs
    {
      hide Serve, ServeAll;
      running := true;
      var i := 0;
      assert xs[..0] == [] && Served([]) == [];
      NothingServed(State());
      while i < |xs| && running
        invariant Valid() && 0 <= i <= |xs|
        invariant State() == ServeAll(old(State()), Served(xs[..i]))
        invariant running <==> UnknownTag !in xs[..i]
      {
        ServedNext(old(State()), xs, i);
        if xs[i].FromEngine? {
          ServeOne(State(), xs[i].m);
          ServiceBridge(xs[i].m);
        } else {
          var going, _ := ServiceEmulator(xs[i]);
          running := going;
        }
        i := i + 1;
      }
      if running {
        assert xs[..i] == xs;
      } else {
        ServedEnds(xs, i);
      }
    }
  }
}
