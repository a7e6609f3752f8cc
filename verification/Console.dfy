/**
 * The console of a native node on the wire: what the engine is sent of it, in terms of what the
 * firmware prints, and what becomes of the stream when it prints too much at once.
 */
module Console {
  import opened Bytes
  import opened Radio
  import opened Clocking
  import opened NodeClock
  import opened Stats
  import opened Wire
  import opened Bridge
  import Server = RadioServer

  // ---- what is printed between two flushes ----

  function Printed(cs: seq<Call>): seq<byte> {
    if cs == [] then []
    else
      Printed(cs[..|cs| - 1]) + if cs[|cs| - 1].Print? then cs[|cs| - 1].text else []
  }

  /** What one pass prints: the handler's output if the handler runs, then the loop's. */
  function PassPrint(n: Node, fw: Firmware): seq<byte> {
    var b := BeginTickNow(n);
    (if b.handler.attached && IrqAsserted(b.hal.chip.radio) then Printed(fw.isr(b.handler.runs)) else [])
    + Printed(fw.loop(n.loops))
  }

  function AdvancePrint(n: Node, at: nat, fw: Firmware): seq<byte>
    decreases at - n.simMillis
  {
    if n.simMillis < at then PassPrint(NextMs(n), fw) + AdvancePrint(Pass(NextMs(n), fw), at, fw) else []
  }

  function TickPrint(n: Node, at: nat, fw: Firmware): seq<byte> {
    AdvancePrint(n, at, fw) + PassPrint(AdvanceTo(n, at, fw), fw)
  }

  /** What a session prints, one entry for each flush: setup's output, then that of each tick. */
  function Flushes(n: Node, ms: seq<Message>, fw: Firmware): seq<seq<byte>> {
    if ms == [] then [Printed(fw.setup)]
    else
      var front, m := ms[..|ms| - 1], ms[|ms| - 1];
      Flushes(n, front, fw) +
      match Session(n, front, fw)
      case Closed(_) => []
      case Running(e) =>
        if m.kind == Server.TICK && |m.payload| == 4 then [TickPrint(e, Server.TickTarget(m.payload), fw)] else []
  }

  // ---- what is sent of it ----

  /** The console output among the messages. */
  function ConsoleOf(ms: seq<Message>): seq<seq<byte>> {
    if ms == [] then []
    else
      ConsoleOf(ms[..|ms| - 1]) + if ms[|ms| - 1].kind == CONSOLE_OUT then [ms[|ms| - 1].payload] else []
  }

  /** An empty flush sends nothing. */
  function Spoken(flushes: seq<seq<byte>>): seq<seq<byte>> {
    if flushes == [] then []
    else
      Spoken(flushes[..|flushes| - 1]) + if flushes[|flushes| - 1] == [] then [] else [flushes[|flushes| - 1]]
  }

  /** Console messages after one more flush. */
  function Heard(before: seq<seq<byte>>, flush: seq<byte>): seq<seq<byte>> {
    if flush == [] then before else before + [flush]
  }

  lemma ConsoleNext(ms: seq<Message>, m: Message)
    ensures ConsoleOf(ms + [m]) == if m.kind == CONSOLE_OUT then ConsoleOf(ms) + [m.payload] else ConsoleOf(ms)
  {
    assert (ms + [m])[..|ms|] == ms;
  }

  lemma SpokenNext(flushes: seq<seq<byte>>, f: seq<byte>)
    ensures Spoken(flushes + [f]) == Heard(Spoken(flushes), f)
  {
    assert (flushes + [f])[..|flushes|] == flushes;
  }

  lemma {:induction false} PerformPrints(n: Node, cs: seq<Call>)
    ensures PerformAll(n, cs).console == n.console + Printed(cs)
    decreases |cs|
  {
    hide StepHal;
    if cs != [] {
      PerformPrints(n, cs[..|cs| - 1]);
    }
  }

  lemma DrainedPrints(n: Node)
    ensures Drained(n).console == n.console && ConsoleOf(Drained(n).toEngine) == ConsoleOf(n.toEngine)
  {
    hide StepHal;
    var o := n.hal.chip.radio.outbox;
    if o.waiting {
      ConsoleNext(n.toEngine, Message(Server.FRAME, o.frame));
    } else {
      assert Drained(n).toEngine == n.toEngine;
    }
  }

  lemma FlushedPrints(n: Node)
    ensures Flushed(n).console == []
    ensures ConsoleOf(Flushed(n).toEngine) == Heard(ConsoleOf(n.toEngine), n.console)
  {
    hide StepHal;
    ConsoleNext(n.toEngine, Message(CONSOLE_OUT, n.console));
  }

  lemma PassPrints(n: Node, fw: Firmware)
    ensures Pass(n, fw).console == n.console + PassPrint(n, fw)
    ensures ConsoleOf(Pass(n, fw).toEngine) == ConsoleOf(n.toEngine)
  {
    hide StepHal, PerformAll, Printed, Drained, ConsoleOf;
    var b := BeginTickNow(n);
    PerformPrints(b.(handler := b.handler.(runs := b.handler.runs + 1)), fw.isr(b.handler.runs));
    var s := ServiceIrq(b, fw);
    PerformPrints(s.(loops := s.loops + 1), fw.loop(s.loops));
    DrainedPrints(RunLoop(s, fw));
  }

  lemma {:induction false} AdvancePrints(n: Node, at: nat, fw: Firmware)
    ensures AdvanceTo(n, at, fw).console == n.console + AdvancePrint(n, at, fw)
    ensures ConsoleOf(AdvanceTo(n, at, fw).toEngine) == ConsoleOf(n.toEngine)
    decreases at - n.simMillis
  {
    hide Pass, PassPrint, ConsoleOf;
    if n.simMillis < at {
      PassPrints(NextMs(n), fw);
      AdvancePrints(Pass(NextMs(n), fw), at, fw);
    }
  }

  lemma TickPrints(n: Node, payload: seq<byte>, fw: Firmware)
    requires |payload| == 4 && n.console == []
    ensures var e, said := Ticked(n, payload, fw), TickPrint(n, Server.TickTarget(payload), fw);
            && e.console == []
            && ConsoleOf(e.toEngine) == Heard(ConsoleOf(n.toEngine), said)
  {
    hide Pass, AdvanceTo, PassPrint, AdvancePrint, ConsoleOf, Flushed, Body;
    var at := Server.TickTarget(payload);
    var a := AdvanceTo(n, at, fw);
    AdvancePrints(n, at, fw);
    PassPrints(a, fw);
    var t := Flushed(Pass(a, fw));
    FlushedPrints(Pass(a, fw));
    var stats, ack := StatsMessage(t.hal.chip), Message(Server.ACK, payload);
    ConsoleNext(t.toEngine, stats);
    ConsoleNext(t.toEngine + [stats], ack);
    assert t.toEngine + [stats] + [ack] == t.toEngine + [stats, ack];
    assert Pass(a, fw).console == TickPrint(n, at, fw);
  }

  /** The console messages of a session are what it prints, flush by flush, empty flushes left out: nothing the firmware
      prints is lost, torn or sent twice on this side of the wire. */
  lemma {:induction false} ConsoleIsPrinted(n: Node, ms: seq<Message>, fw: Firmware)
    requires n.console == [] && ConsoleOf(n.toEngine) == []
    ensures var e := NodeOf(Session(n, ms, fw));
            e.console == [] && ConsoleOf(e.toEngine) == Spoken(Flushes(n, ms, fw))
    decreases |ms|
  {
    hide StepHal, PerformAll, Drained, Flushed, Ticked, TickPrint, ConsoleOf, Spoken, Printed;
    if ms == [] {
      var p := PerformAll(n, fw.setup);
      PerformPrints(n, fw.setup);
      DrainedPrints(p);
      FlushedPrints(Drained(p));
      NothingSpoken();
      SpokenNext([], Printed(fw.setup));
      assert [] + [Printed(fw.setup)] == [Printed(fw.setup)];
      assert n.console + Printed(fw.setup) == Printed(fw.setup);
    } else {
      var front, m := ms[..|ms| - 1], ms[|ms| - 1];
      ConsoleIsPrinted(n, front, fw);
      var o := Session(n, front, fw);
      if o.Running? && m.kind == Server.TICK && |m.payload| == 4 {
        TickPrints(o.n, m.payload, fw);
        SpokenNext(Flushes(n, front, fw), TickPrint(o.n, Server.TickTarget(m.payload), fw));
      } else {
        assert Flushes(n, ms, fw) == Flushes(n, front, fw);
      }
    }
  }

  lemma NothingSpoken()
    ensures Spoken([]) == []
  {
  }

  // ---- what the engine reads of it ----

  predicate AllFit(texts: seq<seq<byte>>) {
    forall k :: 0 <= k < |texts| ==> |texts[k]| <= MAX_PAYLOAD
  }

  lemma AllFitNext(texts: seq<seq<byte>>, t: seq<byte>)
    ensures AllFit(texts + [t]) <==> AllFit(texts) && |t| <= MAX_PAYLOAD
  {
    if AllFit(texts + [t]) {
      assert (texts + [t])[|texts|] == t;
      assert forall k :: 0 <= k < |texts| ==> texts[k] == (texts + [t])[k];
    }
  }

  lemma {:induction false} ConsoleFitsIff(ms: seq<Message>)
    ensures ConsoleFits(ms) <==> AllFit(ConsoleOf(ms))
    decreases |ms|
  {
    hide AllFit;
    if ms == [] {
      assert AllFit([]) by {
        NothingFits();
      }
    } else {
      var n := |ms| - 1;
      ConsoleFitsIff(ms[..n]);
      AllFitNext(ConsoleOf(ms[..n]), ms[n].payload);
      FitsNext(ms);
      ConsoleNext(ms[..n], ms[n]);
      hide ConsoleFits, ConsoleOf;
      assert ms[..n] + [ms[n]] == ms;
    }
  }

  lemma FitsNext(ms: seq<Message>)
    requires ms != []
    ensures var n := |ms| - 1;
            ConsoleFits(ms) <==> ConsoleFits(ms[..n]) && (ms[n].kind == CONSOLE_OUT ==> |ms[n].payload| <= MAX_PAYLOAD)
  {
    var n := |ms| - 1;
    if ConsoleFits(ms) {
      assert forall k :: 0 <= k < n ==> ms[..n][k] == ms[k];
    } else if ConsoleFits(ms[..n]) {
      assert forall k :: 0 <= k < n ==> ms[k] == ms[..n][k];
    }
  }

  lemma NothingFits()
    ensures AllFit([])
  {
  }

  lemma {:induction false} SpokenFitsIff(flushes: seq<seq<byte>>)
    ensures AllFit(Spoken(flushes)) <==> AllFit(flushes)
    decreases |flushes|
  {
    hide AllFit, Spoken;
    NothingSpoken();
    if flushes != [] {
      var n := |flushes| - 1;
      SpokenFitsIff(flushes[..n]);
      SpokenNext(flushes[..n], flushes[n]);
      AllFitNext(Spoken(flushes[..n]), flushes[n]);
      AllFitNext(flushes[..n], flushes[n]);
      assert flushes[..n] + [flushes[n]] == flushes;
    }
  }

  /** From power-up, whatever the firmware and the engine do, the engine reads back exactly what the node sent if and
      only if the firmware never prints more than 65535 bytes in its setup or between the start of a tick and its
      end. */
  lemma EngineReadsAllIffPrinted(stuckMs: nat, rtc: nat, ms: seq<Message>, fw: Firmware)
    ensures var n := PowerUpNode(stuckMs, rtc);
            var sent := NodeOf(Session(n, ms, fw)).toEngine;
            DecodeAll(EncodeAll(sent)) == (sent, []) <==> AllFit(Flushes(n, ms, fw))
  {
    var n := PowerUpNode(stuckMs, rtc);
    hide Session, Flushes, DecodeAll, EncodeAll, AllFit, ConsoleFits;
    EngineReadsAllIff(stuckMs, rtc, ms, fw);
    ConsoleIsPrinted(n, ms, fw);
    ConsoleFitsIff(NodeOf(Session(n, ms, fw)).toEngine);
    SpokenFitsIff(Flushes(n, ms, fw));
  }

  /** It is met: a setup that prints 65536 bytes is enough, before the engine has said a word. */
  lemma SetupPrintsTooMuch()
    ensures var fw := Firmware([Print(seq(0x1_0000, _ => 0x2E))], _ => [], _ => []);
            var sent := NodeOf(Session(PowerUpNode(0, 0), [], fw)).toEngine;
            DecodeAll(EncodeAll(sent)) != (sent, [])
  {
    var text := seq(0x1_0000, _ => 0x2E);
    var fw := Firmware([Print(text)], _ => [], _ => []);
    EngineReadsAllIffPrinted(0, 0, [], fw);
    assert Printed([Print(text)]) == text by {
      assert [Print(text)][..0] == [];
    }
    hide Session, DecodeAll, EncodeAll, Printed, PowerUpNode;
    assert Flushes(PowerUpNode(0, 0), [], fw)[0] == text;
  }
}
