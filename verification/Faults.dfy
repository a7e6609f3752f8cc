/**
 * The injected fault, and the counters that watch the chip. Two chips are fed the same
 * history, one with the fault and one without; and the counters of a single chip are
 * bounded by the clock that drives it.
 */
module Faults {
  import opened Arithmetic
  import opened Bytes
  import opened Radio
  import Detection

  // ---- two runs ----

  /** g behaves, b has the fault; they differ in nothing the firmware or the simulator can see
      but the preamble flag and the instruments. */
  predicate Twins(g: Radio, b: Radio) {
    && g.fault.stuckMs == 0
    && b == g.(irq := b.irq, busyMs := b.busyMs, fault := b.fault)
    && g.irq <= b.irq <= g.irq + {PREAMBLE}
    && g.busyMs <= b.busyMs
  }

  predicate FaultFixed(ops: seq<Op>) {
    forall k :: 0 <= k < |ops| ==> !ops[k].StuckIrq?
  }

  lemma TwinsTick(g: Radio, b: Radio, at: nat)
    requires Twins(g, b)
    ensures Twins(TickTo(g, at), TickTo(b, at))
    ensures PREAMBLE in g.irq ==> PREAMBLE in TickTo(g, at).irq
    ensures PREAMBLE in TickTo(b, at).irq <==>
              PREAMBLE in TickTo(g, at).irq || PREAMBLE in b.irq || SpuriousDue(b, at)
  {
    hide WriteAt, Kept, Heard, Deliver, DetectPreamble, DetectHeader;
    var g1, b1 := Misfire(Accrue(g, at)), Misfire(Accrue(b, at));
    assert Twins(g1, b1) && (PREAMBLE in b1.irq <==> PREAMBLE in b.irq || SpuriousDue(b, at));
    if g1.mode == Rx {
      TwinsReceive(g1, b1);
    }
  }

  lemma TwinsReceive(g: Radio, b: Radio)
    requires Twins(g, b)
    ensures var g', b' := DetectHeader(DetectPreamble(Deliver(g))), DetectHeader(DetectPreamble(Deliver(b)));
            Twins(g', b') && g.irq <= g'.irq && (PREAMBLE in b'.irq <==> PREAMBLE in g'.irq || PREAMBLE in b.irq)
  {
    hide WriteAt, Kept;
    var g2, b2 := Deliver(g), Deliver(b);
    assert Twins(g2, b2);
    var g3, b3 := DetectPreamble(g2), DetectPreamble(b2);
    assert Heard(g2, g2.now, PREAMBLE_SYMBOLS) == Heard(b2, b2.now, PREAMBLE_SYMBOLS);
    assert Heard(g3, g3.now, HEADER_SYMBOLS) == Heard(b3, b3.now, HEADER_SYMBOLS);
    hide Heard, Deliver;
    assert Twins(g3, b3);
  }

  ghost predicate MisfireAt(b: Radio, ops: seq<Op>, k: nat) {
    k < |ops| && ops[k].Tick? && SpuriousDue(Run(b, ops[..k]), ops[k].at)
  }

  ghost predicate MisfireStanding(b: Radio, ops: seq<Op>) {
    exists k: nat :: MisfireAt(b, ops, k) && NotClearedFrom(ops, k + 1, PREAMBLE)
  }

  lemma TwinsStep(g: Radio, b: Radio, op: Op)
    requires Twins(g, b) && !op.StuckIrq?
    ensures Twins(Step(g, op), Step(b, op))
    ensures PREAMBLE in g.irq && PREAMBLE !in ClearMask(op) ==> PREAMBLE in Step(g, op).irq
    ensures var misfires := op.Tick? && SpuriousDue(b, op.at);
            PREAMBLE in Step(b, op).irq <==>
              PREAMBLE in Step(g, op).irq || misfires || (PREAMBLE in b.irq && PREAMBLE !in ClearMask(op))
  {
    hide WriteAt, TickTo, Apply, Decode, SpuriousDue;
    if op.Tick? {
      TwinsTick(g, b, op.at);
    } else if op.Command? && op.out != [] {
      TwinsApply(g, b, Decode(op.out));
    }
  }

  lemma TwinsApply(g: Radio, b: Radio, a: Action)
    requires Twins(g, b)
    ensures var g', b' := Apply(g, a), Apply(b, a);
            && Twins(g', b')
            && (PREAMBLE in g.irq && !(a.ClearIrq? && PREAMBLE in a.mask) ==> PREAMBLE in g'.irq)
            && (PREAMBLE in b'.irq <==>
                PREAMBLE in g'.irq || (PREAMBLE in b.irq && !(a.ClearIrq? && PREAMBLE in a.mask)))
  {
    hide WriteAt, BandwidthHz;
  }

  lemma StandingNext(b: Radio, ops: seq<Op>)
    requires ops != []
    ensures var n := |ops| - 1;
            MisfireStanding(b, ops) <==>
              MisfireAt(b, ops, n) || (MisfireStanding(b, ops[..n]) && PREAMBLE !in ClearMask(ops[n]))
  {
    hide Run, ClearMask, SpuriousDue;
    var n := |ops| - 1;
    var front, last := ops[..n], ops[n];
    forall k: nat | k < n ensures MisfireAt(b, ops, k) == MisfireAt(b, front, k) {
      assert ops[..k] == front[..k];
    }
    forall k: nat | k <= n
      ensures NotClearedFrom(ops, k, PREAMBLE) <==> NotClearedFrom(front, k, PREAMBLE) && PREAMBLE !in ClearMask(last)
    {
      if NotClearedFrom(ops, k, PREAMBLE) {
        assert PREAMBLE !in ClearMask(ops[n]);
        assert forall j :: k <= j < n ==> front[j] == ops[j];
      }
    }
    assert NotClearedFrom(ops, n + 1, PREAMBLE);
  }

  /** Fed the same history, the two chips stay twins: same mode, memories, inbox, outgoing frame and
      flags, except that the faulty one shows a preamble the good one does not exactly while a
      misfire stands uncleared. In particular clearing the preamble flag makes the registers equal
      again until the next misfire. */
  lemma {:induction false} TwinsRun(g: Radio, b: Radio, ops: seq<Op>)
    requires Twins(g, b) && g.irq == b.irq && FaultFixed(ops)
    ensures Twins(Run(g, ops), Run(b, ops))
    ensures Run(b, ops).irq == Run(g, ops).irq + if MisfireStanding(b, ops) then {PREAMBLE} else {}
    decreases |ops|
  {
    hide Step, ClearMask, SpuriousDue;
    if ops != [] {
      var n := |ops| - 1;
      var front, last := ops[..n], ops[n];
      TwinsRun(g, b, front);
      TwinsStep(Run(g, front), Run(b, front), last);
      assert MisfireAt(b, ops, n) <==> last.Tick? && SpuriousDue(Run(b, front), last.at);
      StandingNext(b, ops);
    } else {
      assert !MisfireStanding(b, ops);
    }
  }

  /** The firmware can tell the twins apart only by reading the interrupt register. */
  lemma TwinsReply(g: Radio, b: Radio, out: seq<byte>)
    requires Twins(g, b) && out != [] && out[0] != GET_IRQ_STATUS
    ensures Reply(g, out) == Reply(b, out)
  {
    forall i | 0 <= i < |out| ensures ReplyAt(g, out, i) == ReplyAt(b, out, i) {
    }
  }

  // ---- counters against the clock ----

  /** Time is never set back over the run. */
  ghost predicate Forward(r: Radio, ops: seq<Op>) {
    forall k: nat :: k < |ops| && ops[k].Tick? ==> ops[k].at >= Run(r, ops[..k]).now
  }

  lemma StepNow(r: Radio, op: Op)
    ensures Step(r, op).now == if op.Tick? then op.at else r.now
  {
    hide WriteAt, Heard, Decode, BandwidthHz, Outgoing, Kept;
  }

  lemma {:induction false} ForwardConcat(r: Radio, a: seq<Op>, b: seq<Op>)
    requires Forward(r, a) && Forward(Run(r, a), b)
    ensures Forward(r, a + b)
  {
    hide Step;
    forall k: nat | k < |a + b| && (a + b)[k].Tick? ensures (a + b)[k].at >= Run(r, (a + b)[..k]).now {
      if k < |a| {
        assert (a + b)[..k] == a[..k];
      } else {
        assert (a + b)[..k] == a + b[..k - |a|];
        RunConcat(r, a, b[..k - |a|]);
      }
    }
  }

  /** The chip has been ticked to where its clock stands, and was never busy for longer than that. */
  predicate BusyInTime(r: Radio) {
    r.lastBusyTick == r.now && r.busyMs <= r.now
  }

  /** With a misfire every s milliseconds at most: the next one is at least one period per misfire
      away from zero, and the last one happened no later than now. */
  predicate MisfiresInTime(r: Radio, s: nat) {
    && r.fault.stuckMs == s > 0
    && r.fault.nextSpurious >= r.fault.raises * s
    && (r.fault.raises > 0 ==> r.now >= (r.fault.raises - 1) * s)
  }

  lemma StepInTime(r: Radio, op: Op, s: nat)
    requires BusyInTime(r) && (op.Tick? ==> op.at >= r.now) && !op.StuckIrq?
    ensures BusyInTime(Step(r, op)) && Step(r, op).now >= r.now
    ensures MisfiresInTime(r, s) ==> MisfiresInTime(Step(r, op), s)
  {
    hide TickTo, WriteAt, BandwidthHz, Outgoing, Decode;
    if op.Tick? {
      TickInTime(r, op.at, s);
    }
  }

  lemma TickInTime(r: Radio, at: nat, s: nat)
    requires BusyInTime(r) && at >= r.now
    ensures BusyInTime(TickTo(r, at)) && TickTo(r, at).now >= r.now
    ensures MisfiresInTime(r, s) ==> MisfiresInTime(TickTo(r, at), s)
  {
    var a := Accrue(r, at);
    AccrueInTime(r, at, s);
    MisfireInTime(a, s);
    hide BusyInTime, MisfiresInTime;
    DetectionUncounted(Misfire(a));
    hide Accrue, Misfire, Deliver, DetectPreamble, DetectHeader;
    UncountedInTime(Misfire(a), TickTo(r, at), s);
  }

  /** What the counters of time depend on. */
  predicate SameCounters(a: Radio, b: Radio) {
    a.now == b.now && a.lastBusyTick == b.lastBusyTick && a.busyMs == b.busyMs && a.fault == b.fault
  }

  lemma DetectionUncounted(r: Radio)
    ensures SameCounters(r, DetectHeader(DetectPreamble(Deliver(r))))
  {
    hide WriteAt, Kept, Heard;
  }

  lemma UncountedInTime(a: Radio, b: Radio, s: nat)
    requires SameCounters(a, b) || a == b
    ensures (BusyInTime(a) ==> BusyInTime(b)) && (MisfiresInTime(a, s) ==> MisfiresInTime(b, s)) && b.now == a.now
  {
  }

  lemma AccrueInTime(r: Radio, at: nat, s: nat)
    requires BusyInTime(r) && at >= r.now
    ensures var a := Accrue(r, at);
            && BusyInTime(a) && a.now == at && (MisfiresInTime(r, s) ==> MisfiresInTime(a, s))
  {
  }

  lemma MisfireInTime(r: Radio, s: nat)
    ensures var m := Misfire(r);
            && (BusyInTime(r) ==> BusyInTime(m)) && m.now == r.now
            && (MisfiresInTime(r, s) ==> MisfiresInTime(m, s))
  {
    assert (r.fault.raises + 1) * s == r.fault.raises * s + s;
  }

  lemma StepBusyInTime(r: Radio, op: Op)
    requires BusyInTime(r) && (op.Tick? ==> op.at >= r.now)
    ensures BusyInTime(Step(r, op)) && Step(r, op).now >= r.now
  {
    hide TickTo, WriteAt, BandwidthHz, Outgoing, Decode;
    if op.Tick? {
      TickInTime(r, op.at, 0);
    }
  }

  lemma ForwardFront(r: Radio, ops: seq<Op>)
    requires Forward(r, ops) && ops != []
    ensures var n := |ops| - 1;
            Forward(r, ops[..n]) && (ops[n].Tick? ==> ops[n].at >= Run(r, ops[..n]).now)
  {
    hide Run;
    var n := |ops| - 1;
    var front := ops[..n];
    forall k: nat | k < n && front[k].Tick? ensures front[k].at >= Run(r, front[..k]).now {
      assert ops[..k] == front[..k] && front[k] == ops[k];
    }
    assert ops[n].Tick? ==> ops[n].at >= Run(r, ops[..n]).now;
  }

  /** Driven by a clock that never goes back, whatever else happens, its fault set or not: the busy time is within the
      time that has passed. */
  lemma {:induction false} BusyTimeInTime(r: Radio, ops: seq<Op>)
    requires BusyInTime(r) && Forward(r, ops)
    ensures var e := Run(r, ops);
            BusyInTime(e) && e.busyMs <= e.now && r.now <= e.now
    decreases |ops|
  {
    hide Step, Forward;
    if ops != [] {
      var n := |ops| - 1;
      ForwardFront(r, ops);
      BusyTimeInTime(r, ops[..n]);
      StepBusyInTime(Run(r, ops[..n]), ops[n]);
    }
  }

  /** Driven by a clock that never goes back, and with the fault's period s fixed, in every reachable
      state the busy time is within the time that has passed and the misfires within one per period. */
  lemma {:induction false} CountersInTime(r: Radio, ops: seq<Op>, s: nat)
    requires BusyInTime(r) && Forward(r, ops) && FaultFixed(ops)
    ensures var e := Run(r, ops);
            && BusyInTime(e) && e.busyMs <= e.now && r.now <= e.now
            && (MisfiresInTime(r, s) ==> MisfiresInTime(e, s) && e.fault.raises <= e.now / s + 1)
    decreases |ops|
  {
    hide Step, BusyInTime, MisfiresInTime;
    if ops != [] {
      var n := |ops| - 1;
      var front := ops[..n];
      ForwardFront(r, ops);
      CountersInTime(r, front, s);
      StepInTime(Run(r, front), ops[n], s);
    }
    MisfireCount(Run(r, ops), s);
  }

  lemma MisfireCount(r: Radio, s: nat)
    ensures BusyInTime(r) ==> r.busyMs <= r.now
    ensures MisfiresInTime(r, s) ==> r.fault.raises <= r.now / s + 1
  {
    if MisfiresInTime(r, s) && r.fault.raises > 0 {
      QuotientAtLeast(r.now, r.fault.raises - 1, s);
    }
  }

  lemma PowerUpInTime(s: nat)
    requires s > 0
    ensures BusyInTime(PowerUp(s)) && MisfiresInTime(PowerUp(s), s)
  {
  }

  // ---- the fault itself ----

  /** How often a fault with period s that is first due at `first` has fired by `end`. */
  function Firings(first: nat, s: nat, end: nat): nat
    requires s > 0
  {
    if end >= first then (end - first) / s + 1 else 0
  }

  /** Ticked every millisecond in receive mode, a chip with the fault misfires as soon as it is due and then once every
      period, neither less often nor more. */
  lemma {:induction false} MisfiresOncePerPeriod(r: Radio, end: nat)
    requires r.mode == Rx && r.fault.stuckMs > 0 && end >= r.now
    ensures var e, s := Run(r, Detection.Ticks(Detection.Milliseconds(r.now, end))), r.fault.stuckMs;
            var first := Max(r.fault.nextSpurious, r.now + 1);
            && e.mode == Rx && e.now == end && e.fault.stuckMs == s
            && e.fault.raises == r.fault.raises + (if end >= first then (end - first) / s + 1 else 0)
            && e.fault.nextSpurious
                 == (if end >= first then first + ((end - first) / s + 1) * s else r.fault.nextSpurious)
    decreases end
  {
    hide TickTo;
    var ts := Detection.Milliseconds(r.now, end);
    var s, first := r.fault.stuckMs, Max(r.fault.nextSpurious, r.now + 1);
    if end == r.now {
      assert Detection.Ticks(ts) == [];
    } else {
      var front := Detection.Milliseconds(r.now, end - 1);
      assert Detection.Ticks(ts)[..|ts| - 1] == Detection.Ticks(front);
      MisfiresOncePerPeriod(r, end - 1);
      var m := Run(r, Detection.Ticks(front));
      TickMisfires(m, end);
      NextFiring(r.fault.nextSpurious, first, s, end, m.fault.nextSpurious);
      hide Run, Detection.Milliseconds, Detection.Ticks, Max, Firings;
      assert m.fault.raises == r.fault.raises + Firings(first, s, end - 1) by {
        FiringsAre(first, s, end - 1);
      }
      FiringsAre(first, s, end);
    }
  }

  lemma FiringsAre(first: nat, s: nat, end: nat)
    requires s > 0
    ensures Firings(first, s, end) == if end >= first then (end - first) / s + 1 else 0
  {
  }

  /** One more millisecond: the fault fires if and only if it is due, and is next due a period later. */
  lemma NextFiring(due: nat, first: nat, s: nat, end: nat, next: nat)
    requires s > 0 && end >= 1 && due <= first && (end < first ==> end < due)
    requires next == if end - 1 >= first then first + Firings(first, s, end - 1) * s else due
    ensures Firings(first, s, end) == Firings(first, s, end - 1) + if end >= next then 1 else 0
    ensures end >= next ==> end + s == first + Firings(first, s, end) * s
    ensures end < next ==> next == if end >= first then first + Firings(first, s, end) * s else due
  {
    if end > first {
      NextPeriod(end - 1 - first, s);
    } else if end == first {
      assert 0 / s == 0;
    }
  }

  lemma TickMisfires(r: Radio, at: nat)
    ensures var e := TickTo(r, at);
            && e.mode == r.mode && e.now == at
            && e.fault == if r.fault.stuckMs > 0 && r.mode == Rx && at >= r.fault.nextSpurious
                          then Fault(r.fault.stuckMs, at + r.fault.stuckMs, r.fault.raises + 1) else r.fault
  {
    hide WriteAt, Kept, Heard;
  }

  /** One millisecond later the next period is up, or it is not. */
  lemma NextPeriod(d: nat, s: nat)
    requires s > 0
    ensures d + 1 >= (d / s + 1) * s <==> (d + 1) / s == d / s + 1
    ensures d + 1 < (d / s + 1) * s <==> (d + 1) / s == d / s
    ensures d + 1 >= (d / s + 1) * s ==> d + 1 == (d / s + 1) * s
    ensures (d / s + 2) * s == (d / s + 1) * s + s
  {
    var q := d / s;
    assert d == s * q + d % s && (q + 1) * s == s * q + s;
    if d + 1 >= (q + 1) * s {
      QuotientUnique(d + 1, s, q + 1);
    } else {
      QuotientUnique(d + 1, s, q);
    }
  }

  /** On a quiet channel with nothing waiting the preamble flag of a faulty chip is up from the first misfire on, and
      that of a good one never: the lie the fault tells. It stays up until cleared, by Irq.Latched. */
  lemma {:induction false} LieOnQuietChannel(r: Radio, end: nat)
    requires r.mode == Rx && r.inbox == [] && !r.air.busy && 2 !in r.irq && end >= r.now
    ensures var e := Run(r, Detection.Ticks(Detection.Milliseconds(r.now, end)));
            && (r.fault.stuckMs == 0 ==> 2 !in e.irq)
            && (r.fault.stuckMs > 0 ==> (2 in e.irq <==> end >= Max(r.fault.nextSpurious, r.now + 1)))
            && e.inbox == [] && !e.air.busy && e.fault.stuckMs == r.fault.stuckMs && e.mode == Rx
    decreases end
  {
    hide TickTo;
    var ts := Detection.Milliseconds(r.now, end);
    if end == r.now {
      assert Detection.Ticks(ts) == [];
    } else {
      var front := Detection.Milliseconds(r.now, end - 1);
      assert Detection.Ticks(ts)[..|ts| - 1] == Detection.Ticks(front);
      LieOnQuietChannel(r, end - 1);
      var m := Run(r, Detection.Ticks(front));
      if r.fault.stuckMs > 0 {
        MisfiresOncePerPeriod(r, end - 1);
      }
      TickMisfires(m, end);
      QuietTick(m, end);
    }
  }

  lemma QuietTick(r: Radio, at: nat)
    requires r.mode == Rx && r.inbox == [] && !r.air.busy
    ensures var e := TickTo(r, at);
            && e.inbox == [] && !e.air.busy
            && (2 in e.irq <==> 2 in r.irq || (r.fault.stuckMs > 0 && at >= r.fault.nextSpurious))
  {
    hide WriteAt, Kept, Heard;
  }
}
