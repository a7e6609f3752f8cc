/**
 * The timing of preamble and header detection. In an unbroken stretch of receiving on a busy
 * channel, what the chip reports at an instant depends on the instant and not on how the
 * clock got there; ticked every millisecond, it reports at exactly the rounded-up symbol times.
 */
module Detection {
  import opened Arithmetic
  import opened Bytes
  import opened Radio
  import opened Irq

  /** Receiving, nothing waiting to be delivered, and somebody on the air since air.since. */
  predicate Listening(r: Radio) {
    r.mode == Rx && r.inbox == [] && r.air.busy && r.air.since <= r.now
  }

  function Ticks(ts: seq<nat>): (ops: seq<Op>)
    ensures |ops| == |ts|
  {
    seq(|ts|, i requires 0 <= i < |ts| => Tick(ts[i]))
  }

  predicate Forward(from: nat, ts: seq<nat>) {
    && (ts != [] ==> from <= ts[0])
    && forall i, j :: 0 <= i < j < |ts| ==> ts[i] <= ts[j]
  }

  lemma HeardLater(r: Radio, t: nat, u: nat, symbols: nat)
    requires r.air.since <= t <= u && Heard(r, t, symbols)
    ensures Heard(r, u, symbols)
  {
    hide Pow2;
    var hz := Bandwidth(r.modem);
    assert (u - r.air.since) * hz == (t - r.air.since) * hz + (u - t) * hz;
  }

  /** What listening until `at` makes of a state: a formula with no history in it. */
  function HeardBy(r: Radio, at: nat): Radio {
    var p := Heard(r, at, PREAMBLE_SYMBOLS);
    var h := Heard(r, at, HEADER_SYMBOLS);
    r.(irq := r.irq
         + (if SpuriousDue(r, at) || (p && !r.air.preambleRaised) then {PREAMBLE} else {})
         + (if h && !r.air.headerRaised then {HEADER, SYNC_WORD} else {}),
       air := r.air.(preambleRaised := r.air.preambleRaised || p, headerRaised := r.air.headerRaised || h),
       preambleRaises := r.preambleRaises + (if p && !r.air.preambleRaised then 1 else 0),
       lastBusyTick := at,
       now := at)
  }

  /** Equal but for the two instruments that do depend on the tick size: busy time and misfire count. */
  predicate SameButInstruments(a: Radio, b: Radio) {
    b == a.(busyMs := b.busyMs, fault := b.fault)
  }

  lemma OneTick(r: Radio, at: nat)
    requires Listening(r) && r.now <= at
    ensures SameButInstruments(HeardBy(r, at), TickTo(r, at)) && Listening(TickTo(r, at))
    ensures var e := TickTo(r, at); e.now == at && r.irq <= e.irq && (SpuriousDue(r, at) ==> PREAMBLE in e.irq)
    ensures TickTo(r, at).fault
              == if SpuriousDue(r, at) then Fault(r.fault.stuckMs, at + r.fault.stuckMs, r.fault.raises + 1)
                 else r.fault
  {
    var m := Misfire(Accrue(r, at));
    assert Deliver(m) == m;
    var p := DetectPreamble(m);
    assert Heard(m, m.now, PREAMBLE_SYMBOLS) == Heard(r, at, PREAMBLE_SYMBOLS);
    assert Heard(p, p.now, HEADER_SYMBOLS) == Heard(r, at, HEADER_SYMBOLS);
    hide Heard, Deliver;
  }

  /** Two ticks in a row say what the later one alone would have said. */
  lemma TwoTicks(r: Radio, m: Radio, t: nat, u: nat)
    requires Listening(r) && r.now <= t <= u && Listening(m)
    requires SameButInstruments(HeardBy(r, t), m)
    requires m.fault == r.fault || (PREAMBLE in m.irq && SpuriousDue(r, t))
    requires SpuriousDue(r, t) ==> PREAMBLE in m.irq
    ensures SameButInstruments(HeardBy(r, u), HeardBy(m, u))
  {
    assert Heard(m, u, PREAMBLE_SYMBOLS) == Heard(r, u, PREAMBLE_SYMBOLS);
    assert Heard(m, u, HEADER_SYMBOLS) == Heard(r, u, HEADER_SYMBOLS);
    if Heard(r, t, PREAMBLE_SYMBOLS) {
      HeardLater(r, t, u, PREAMBLE_SYMBOLS);
    }
    if Heard(r, t, HEADER_SYMBOLS) {
      HeardLater(r, t, u, HEADER_SYMBOLS);
    }
    hide Heard;
    assert HeardBy(m, u).irq == HeardBy(r, u).irq;
  }

  /** Any ticks that never go back and end at the same instant: the same report, fault or no fault. */
  lemma {:induction false} TickSizeIrrelevant(r: Radio, ts: seq<nat>)
    requires Listening(r) && ts != [] && Forward(r.now, ts)
    ensures var e, at := Run(r, Ticks(ts)), ts[|ts| - 1];
            && SameButInstruments(HeardBy(r, at), e)
            && Listening(e) && e.now == at
            && (e.fault == r.fault || (PREAMBLE in e.irq && SpuriousDue(r, at)))
            && (SpuriousDue(r, at) ==> PREAMBLE in e.irq)
    decreases |ts|
  {
    hide TickTo, HeardBy, SinceBusy;
    var n := |ts| - 1;
    var ops := Ticks(ts);
    if n == 0 {
      assert ops[..0] == [] && Run(r, ops[..0]) == r;
      OneTick(r, ts[0]);
    } else {
      var front := ts[..n];
      assert ops[..n] == Ticks(front);
      TickSizeIrrelevant(r, front);
      var m := Run(r, Ticks(front));
      TwoTicks(r, m, front[n - 1], ts[n]);
      OneTick(m, ts[n]);
    }
  }

  /** The statement without the instruments: two chips that agree before the stretch agree after it,
      however differently they were ticked. */
  lemma SameReport(r: Radio, ts: seq<nat>, us: seq<nat>)
    requires Listening(r) && ts != [] && us != [] && Forward(r.now, ts) && Forward(r.now, us)
    requires ts[|ts| - 1] == us[|us| - 1]
    ensures SameButInstruments(Run(r, Ticks(ts)), Run(r, Ticks(us)))
  {
    hide Run, HeardBy;
    TickSizeIrrelevant(r, ts);
    TickSizeIrrelevant(r, us);
  }

  // ---- one tick a millisecond ----

  /** The first millisecond by which `symbols` symbols of the signal have gone by. */
  function Instant(r: Radio, symbols: nat): (at: nat)
    requires r.air.since <= r.now
  {
    var hz := Bandwidth(r.modem);
    r.air.since + (1000 * symbols * Pow2(r.modem.sf) + hz - 1) / hz
  }

  lemma HeardFrom(r: Radio, t: nat, symbols: nat)
    requires r.air.since <= r.now && r.air.since <= t
    ensures Heard(r, t, symbols) <==> t >= Instant(r, symbols)
  {
    hide Pow2;
    CeilingIs(1000 * symbols * Pow2(r.modem.sf), Bandwidth(r.modem), t - r.air.since);
  }

  function Milliseconds(from: nat, end: nat): (ts: seq<nat>)
    requires from <= end
    ensures |ts| == end - from
  {
    seq(end - from, i requires 0 <= i => from + 1 + i)
  }

  /** Ticked every millisecond from before the preamble instant: the preamble flag is up from exactly
      since + ceil(4 * 2^sf / bandwidth), the header flag from exactly since + ceil(12 * 2^sf / bandwidth),
      and the time spent busy is exactly the time since the preamble instant. */
  lemma {:induction false} ByTheMillisecond(r: Radio, end: nat)
    requires Listening(r) && r.fault.stuckMs == 0 && r.lastBusyTick == r.now
    requires !ShowsBusy(r.irq) && !r.air.preambleRaised && !r.air.headerRaised
    requires r.now <= end && r.now < Instant(r, PREAMBLE_SYMBOLS)
    ensures var e := Run(r, Ticks(Milliseconds(r.now, end)));
            var p, h := Instant(r, PREAMBLE_SYMBOLS), Instant(r, HEADER_SYMBOLS);
            && p <= h
            && (PREAMBLE in e.irq <==> end >= p)
            && (HEADER in e.irq <==> end >= h)
            && e.busyMs == r.busyMs + Max(0, end - p)
            && e.lastBusyTick == end
    decreases end
  {
    hide TickTo, Instant, Heard;
    HeardFrom(r, Max(r.now, end), PREAMBLE_SYMBOLS);
    HeardFrom(r, Max(r.now, end), HEADER_SYMBOLS);
    EarlierInstant(r);
    var ts := Milliseconds(r.now, end);
    if end == r.now {
      assert Ticks(ts) == [];
    } else {
      var front := Milliseconds(r.now, end - 1);
      assert Ticks(ts)[..|ts| - 1] == Ticks(front);
      ByTheMillisecond(r, end - 1);
      TickSizeIrrelevant(r, ts);
      assert ts[|ts| - 1] == end;
      BusyAccrual(Run(r, Ticks(front)), end);
    }
  }

  lemma EarlierInstant(r: Radio)
    requires r.air.since <= r.now
    ensures Instant(r, PREAMBLE_SYMBOLS) <= Instant(r, HEADER_SYMBOLS)
  {
    hide Pow2;
    var h := Instant(r, HEADER_SYMBOLS);
    var hz, symbol := Bandwidth(r.modem), 1000 * Pow2(r.modem.sf);
    CeilingIs(12 * symbol, hz, h - r.air.since);
    CeilingIs(4 * symbol, hz, h - r.air.since);
  }

  lemma BusyAccrual(r: Radio, at: nat)
    requires r.lastBusyTick + 1 == at
    ensures TickTo(r, at).busyMs == r.busyMs + (if ShowsBusy(r.irq) then 1 else 0)
  {
    hide WriteAt, Kept, Heard;
  }

  // ---- from the report of a signal to its flags ----

  /** How long some symbols take, in milliseconds, rounded up. */
  function RoundedUpMs(symbols: nat, m: Modem): nat
    requires m.bwHz > 0
  {
    (1000 * symbols * Pow2(m.sf) + m.bwHz - 1) / m.bwHz
  }

  /** A chip that behaves, receives and has nothing waiting, on a quiet channel with its flags down, is told of a signal
      and then ticked in any steps, none of them back, to an instant: the preamble flag is up if and only if four
      symbols have gone by since the report, and the header and sync word flags if and only if twelve have, rounded
      up to whole milliseconds. */
  lemma FlagsFromReport(r: Radio, ts: seq<nat>)
    requires r.mode == Rx && r.inbox == [] && !r.air.busy && Booked(r) && r.fault.stuckMs == 0 && r.modem.bwHz > 0
    requires 2 !in r.irq && 3 !in r.irq && 4 !in r.irq && ts != [] && Forward(r.now, ts)
    ensures var e := Run(r, [ChannelBusy(true)] + Ticks(ts));
            var at := ts[|ts| - 1];
            && (2 in e.irq <==> at >= r.now + RoundedUpMs(4, r.modem))
            && (4 in e.irq <==> at >= r.now + RoundedUpMs(12, r.modem))
            && (3 in e.irq <==> 4 in e.irq)
  {
    hide RoundedUpMs, Pow2, Forward, Heard, Ticks, Run;
    var b := r.(air := Air(true, r.now, false, false));
    var at := ts[|ts| - 1];
    Reported(r, Ticks(ts));
    OnsetReported(r);
    FlagsHeard(b, ts);
    hide Step, Booked;
    LastForward(r.now, ts);
    HeardAfter(b, at);
  }

  lemma OnsetReported(r: Radio)
    requires !r.air.busy && Booked(r)
    ensures Step(r, ChannelBusy(true)) == r.(air := Air(true, r.now, false, false))
  {
  }

  /** With both detectors waiting, the flags that are up in the end are those whose time has gone by. */
  lemma FlagsHeard(b: Radio, ts: seq<nat>)
    requires Listening(b) && b.fault.stuckMs == 0 && !b.air.preambleRaised && !b.air.headerRaised
    requires 2 !in b.irq && 3 !in b.irq && 4 !in b.irq && ts != [] && Forward(b.now, ts)
    ensures var e, at := Run(b, Ticks(ts)), ts[|ts| - 1];
            && (2 in e.irq <==> Heard(b, at, 4)) && (4 in e.irq <==> Heard(b, at, 12))
            && (3 in e.irq <==> 4 in e.irq)
  {
    TickSizeIrrelevant(b, ts);
    hide Run, Heard, Forward;
  }

  lemma HeardAfter(b: Radio, at: nat)
    requires b.air.since == b.now <= at && b.modem.bwHz > 0
    ensures Heard(b, at, 4) <==> at >= b.now + RoundedUpMs(4, b.modem)
    ensures Heard(b, at, 12) <==> at >= b.now + RoundedUpMs(12, b.modem)
  {
    hide Pow2;
    HeardFrom(b, at, 4);
    HeardFrom(b, at, 12);
  }

  lemma Reported(r: Radio, rest: seq<Op>)
    ensures Run(r, [ChannelBusy(true)] + rest) == Run(Step(r, ChannelBusy(true)), rest)
  {
    hide Step;
    RunConcat(r, [ChannelBusy(true)], rest);
    assert [ChannelBusy(true)][..0] == [];
  }

  lemma LastForward(from: nat, ts: seq<nat>)
    requires ts != [] && Forward(from, ts)
    ensures from <= ts[|ts| - 1]
  {
  }

  /** A tick back to before the signal began takes the time since as unsigned, so that every threshold is past and the
      chip reports at once. */
  lemma TickBehindOnset(r: Radio, at: nat)
    requires r.mode == Rx && r.inbox == [] && r.air.busy && !r.air.preambleRaised && !r.air.headerRaised
    requires at < r.air.since && 12000 * Pow2(r.modem.sf) <= 0x1_0000_0000_0000_0000 - (r.air.since - at)
    ensures 2 in TickTo(r, at).irq && 3 in TickTo(r, at).irq && 4 in TickTo(r, at).irq
  {
    hide Pow2, Deliver;
    var m := Misfire(Accrue(r, at));
    assert Deliver(m) == m by {
      DeliverNothing(m);
    }
    LongAgo(r.air, r.modem, at);
    hide SinceBusy, Bandwidth;
  }

  lemma DeliverNothing(r: Radio)
    requires r.inbox == []
    ensures Deliver(r) == r
  {
  }

  lemma LongAgo(air: Air, m: Modem, at: nat)
    requires at < air.since && 12000 * Pow2(m.sf) <= 0x1_0000_0000_0000_0000 - (air.since - at)
    ensures SinceBusy(air.since, at) * Bandwidth(m) >= 12000 * Pow2(m.sf) >= 4000 * Pow2(m.sf)
  {
    var since, hz := SinceBusy(air.since, at), Bandwidth(m);
    assert since == 0x1_0000_0000_0000_0000 - (air.since - at);
    hide Pow2, SinceBusy, Bandwidth;
    Scaled(1, hz, since);
  }

  /** At spreading factor 10 and 250 kHz the preamble takes 17 ms. */
  lemma SeventeenMs(r: Radio)
    requires r.mode == Rx && r.inbox == [] && !r.air.busy && Booked(r) && r.fault.stuckMs == 0
    requires 2 !in r.irq && 3 !in r.irq && 4 !in r.irq && r.modem.sf == 10 && r.modem.bwHz == 250000
    ensures 2 !in Run(r, [ChannelBusy(true), Tick(r.now + 16)]).irq
    ensures 2 in Run(r, [ChannelBusy(true), Tick(r.now + 17)]).irq
  {
    FlagsFromReport(r, [r.now + 16]);
    FlagsFromReport(r, [r.now + 17]);
    hide Run, Booked;
    assert [ChannelBusy(true)] + Ticks([r.now + 16]) == [ChannelBusy(true), Tick(r.now + 16)];
    assert [ChannelBusy(true)] + Ticks([r.now + 17]) == [ChannelBusy(true), Tick(r.now + 17)];
    assert Pow2(10) == 1024 by {
      assert Pow2(5) == 32;
    }
  }
}
