/**
 * Transmission: the bytes that go out are the bytes the driver wrote, the node is deaf while
 * its transmitter is keyed, and what each drain puts on the wire is the last frame committed
 * since the drain before.
 */
module Transmit {
  import opened Bytes
  import opened Radio
  import opened Frames
  import opened Settings

  // ---- round trip of one frame ----

  /** WriteBuffer at the transmit base, SetPacketParams with the length, SetTx: the frame handed to the
      channel is exactly the bytes written. */
  lemma TransmitRoundTrip(r: Radio, data: seq<byte>, params: seq<byte>)
    requires |data| <= 255 && r.txBase + |data| <= |r.buffer|
    requires |params| >= 7 && params[0] == SET_PACKET_PARAMS && params[4] == |data|
    ensures var e := Run(r, [Command([WRITE_BUFFER, r.txBase] + data), Command(params), Command([SET_TX])]);
            e.outbox == Outbox(true, data) && e.mode == Tx && e.fem.atTx == r.fem.enabled
  {
    Loaded(r, data, params);
    hide Exec, Outgoing;
    var b := Exec(Exec(r, [WRITE_BUFFER, r.txBase] + data), params);
    ThreeCommands(r, [WRITE_BUFFER, r.txBase] + data, params, [SET_TX]);
    assert Exec(b, [SET_TX]) == StartTx(b) by {
      Keys(b);
    }
  }

  lemma Keys(r: Radio)
    ensures Exec(r, [SET_TX]) == StartTx(r)
  {
    hide StartTx;
    assert Decode([SET_TX]) == StartTransmit;
  }

  lemma ThreeCommands(r: Radio, a: seq<byte>, b: seq<byte>, c: seq<byte>)
    ensures Run(r, [Command(a), Command(b), Command(c)]) == Exec(Exec(Exec(r, a), b), c)
  {
    hide Exec;
    var ops := [Command(a), Command(b), Command(c)];
    RunNext(r, ops, 0);
    RunNext(r, ops, 1);
    RunNext(r, ops, 2);
    assert ops[..3] == ops && ops[..0] == [];
  }

  /** The bytes are in place for the next SetTx. */
  lemma Loaded(r: Radio, data: seq<byte>, params: seq<byte>)
    requires |data| <= 255 && r.txBase + |data| <= |r.buffer|
    requires |params| >= 7 && params[0] == SET_PACKET_PARAMS && params[4] == |data|
    ensures var b := Exec(Exec(r, [WRITE_BUFFER, r.txBase] + data), params);
            Outgoing(b) == data && b.fem == r.fem
  {
    var write := [WRITE_BUFFER, r.txBase] + data;
    assert write[2..] == data;
    assert Decode(write) == StoreBuffer(r.txBase, data);
  }

  /** In any run at all: if the last thing written to the data buffer was `data` at the transmit base, by the command
      at position i, the transmit base is there again in the end, and the last packet length set, by the command
      at position j before or after it, is that of `data`, then SetTx hands exactly `data` to the channel. */
  lemma TransmitInAnyOrder(r: Radio, ops: seq<Op>, i: nat, data: seq<byte>, j: nat, params: seq<byte>)
    requires i < |ops| && j < |ops| && |data| <= 255
    requires var b := Run(r, ops[..i]);
             b.txBase + |data| <= |b.buffer| && ops[i] == Command([WRITE_BUFFER, b.txBase] + data)
    requires Undisturbed(Run(r, ops[..i + 1]), ops[i + 1..]) && Run(r, ops).txBase == Run(r, ops[..i]).txBase
    requires ops[j] == Command(params) && |params| >= 7 && params[0] == SET_PACKET_PARAMS && params[4] == |data|
    requires NotIssuedFrom(ops, j + 1, SET_PACKET_PARAMS)
    ensures var e := Run(r, ops + [Command([SET_TX])]);
            e.outbox == Outbox(true, data) && e.mode == Tx
  {
    hide Run, Exec, Outgoing, Undisturbed;
    var b, w, e := Run(r, ops[..i]), Run(r, ops[..i + 1]), Run(r, ops);
    var rest := ops[i + 1..];
    RunNext(r, ops, i);
    BufferWritten(b, data);
    assert ops[..i + 1] + rest == ops;
    RunConcat(r, ops[..i + 1], rest);
    BufferHolds(w, rest);
    LastSettingHolds(r, ops, j);
    LengthHeld(e, params);
    OutgoingIs(e, b.txBase, data);
    RunNext(r, ops + [Command([SET_TX])], |ops|);
    var all := ops + [Command([SET_TX])];
    assert all[..|ops|] == ops && all[..|ops| + 1] == all;
    Keys(e);
  }

  lemma BufferWritten(b: Radio, data: seq<byte>)
    requires b.txBase + |data| <= |b.buffer|
    ensures var w := Exec(b, [WRITE_BUFFER, b.txBase] + data);
            w.buffer == WriteAt(b.buffer, b.txBase, data)
  {
    hide WriteAt;
    var write := [WRITE_BUFFER, b.txBase] + data;
    assert write[2..] == data;
    assert Decode(write) == StoreBuffer(b.txBase, data);
  }

  lemma LengthHeld(e: Radio, params: seq<byte>)
    requires |params| >= 7 && params[0] == SET_PACKET_PARAMS && Holds(e, params)
    ensures e.txLen == params[4]
  {
    hide Word;
  }

  lemma OutgoingIs(e: Radio, base: byte, data: seq<byte>)
    requires base + |data| <= |e.buffer| && e.txBase == base && e.txLen == |data|
    requires e.buffer[base..base + |data|] == data
    ensures Outgoing(e) == data
  {
  }

  // ---- half duplex ----

  /** The operation neither ends a transmission nor commands a mode. */
  predicate LeavesMode(op: Op) {
    && !op.TransmitFinished?
    && (op.Command? && op.out != [] ==>
          var a := Decode(op.out); !a.EnterMode? && !a.StartTransmit? && !a.StartScan?)
  }

  lemma DeafStep(r: Radio, op: Op)
    requires r.mode == Tx && LeavesMode(op)
    ensures Step(r, op).mode == Tx && Delivery(r, op) == []
    ensures Step(r, op).irq == r.irq - ClearMask(op)
  {
    hide WriteAt, Decode, BandwidthHz;
  }

  /** While the transmitter is keyed nothing that happens on the air reaches the firmware: no frame is
      delivered, what arrives waits in order, and no flag comes up; flags go down only on request. */
  lemma {:induction false} Deaf(r: Radio, ops: seq<Op>)
    requires r.mode == Tx && forall k :: 0 <= k < |ops| ==> LeavesMode(ops[k])
    ensures var e := Run(r, ops);
            && e.mode == Tx && Delivered(r, ops) == [] && e.inbox == r.inbox + Pushed(ops)
            && (forall b :: b in e.irq <==> b in r.irq && NotClearedFrom(ops, 0, b))
    decreases |ops|
  {
    hide Step, Delivery, LeavesMode, ClearMask;
    if ops != [] {
      var n := |ops| - 1;
      var front := ops[..n];
      Deaf(r, front);
      DeafStep(Run(r, front), ops[n]);
      forall b ensures NotClearedFrom(ops, 0, b) <==> NotClearedFrom(front, 0, b) && b !in ClearMask(ops[n]) {
        if NotClearedFrom(ops, 0, b) {
          assert forall j :: 0 <= j < n ==> front[j] == ops[j];
        }
      }
    }
    FramesConserved(r, ops);
  }

  // ---- transmissions begun and ended ----

  function Begun(ops: seq<Op>): nat {
    if ops == [] then 0
    else
      var n := |ops| - 1;
      Begun(ops[..n]) + if ops[n].Command? && ops[n].out != [] && ops[n].out[0] == SET_TX then 1 else 0
  }

  /** How often TxDone was raised. */
  function Ended(r: Radio, ops: seq<Op>): nat {
    if ops == [] then 0
    else
      var n := |ops| - 1;
      Ended(r, ops[..n]) + if ops[n].TransmitFinished? && Run(r, ops[..n]).mode == Tx then 1 else 0
  }

  function Keyed(r: Radio): nat {
    if r.mode == Tx then 1 else 0
  }

  lemma StepMode(r: Radio, op: Op)
    requires r.mode != Cad
    ensures Step(r, op).mode != Cad
    ensures Keyed(Step(r, op)) + (if op.TransmitFinished? && r.mode == Tx then 1 else 0)
              <= Keyed(r) + (if op.Command? && op.out != [] && op.out[0] == SET_TX then 1 else 0)
  {
    hide TickTo, Apply, Decode;
    if op.Tick? {
      TickKeepsMode(r, op.at);
    } else if op.Command? && op.out != [] {
      ActionMode(r, op.out);
    }
  }

  lemma TickKeepsMode(r: Radio, at: nat)
    ensures TickTo(r, at).mode == r.mode
  {
    hide WriteAt, Kept, Heard;
  }

  lemma ActionMode(r: Radio, out: seq<byte>)
    requires out != []
    ensures var e := Apply(r, Decode(out));
            && (e.mode != Cad || e.mode == r.mode)
            && (e.mode == Tx ==> r.mode == Tx || out[0] == SET_TX)
  {
    hide WriteAt, BandwidthHz, Outgoing, Register, PllToHz, Word, Signed;
  }

  /** No transmission ends that was not begun, and the channel-scan mode is never seen between operations. */
  lemma {:induction false} ModesOverRuns(r: Radio, ops: seq<Op>)
    requires r.mode != Cad
    ensures Run(r, ops).mode != Cad
    ensures Ended(r, ops) + Keyed(Run(r, ops)) <= Begun(ops) + Keyed(r)
    decreases |ops|
  {
    hide Step, Keyed;
    if ops != [] {
      var n := |ops| - 1;
      ModesOverRuns(r, ops[..n]);
      StepMode(Run(r, ops[..n]), ops[n]);
    }
  }

  // ---- what reaches the wire ----

  /** No more than a length byte can count. */
  predicate ShortFrame(r: Radio) {
    |r.outbox.frame| <= 255
  }

  lemma {:induction false} RunKeepsShort(r: Radio, ops: seq<Op>)
    requires ShortFrame(r)
    ensures ShortFrame(Run(r, ops))
    decreases |ops|
  {
    hide Step;
    if ops != [] {
      RunKeepsShort(r, ops[..|ops| - 1]);
      StepOutbox(Run(r, ops[..|ops| - 1]), ops[|ops| - 1]);
    }
  }

  /** The frame a SetTx commits. */
  function Committed(r: Radio, op: Op): (c: seq<Frame>)
    ensures |c| <= 1 && (op.Drain? ==> c == [])
    ensures forall k :: 0 <= k < |c| ==> |c[k]| <= 255
  {
    if op.Command? && op.out != [] && op.out[0] == SET_TX then [Outgoing(r)] else []
  }

  /** What a drain writes to the engine. */
  function OnWire(r: Radio, op: Op): seq<Frame> {
    if op.Drain? && r.outbox.waiting then [r.outbox.frame] else []
  }

  function Wire(r: Radio, ops: seq<Op>): seq<Frame> {
    if ops == [] then []
    else
      var n := |ops| - 1;
      Wire(r, ops[..n]) + OnWire(Run(r, ops[..n]), ops[n])
  }

  lemma {:induction false} WireConcat(r: Radio, a: seq<Op>, b: seq<Op>)
    ensures Wire(r, a + b) == Wire(r, a) + Wire(Run(r, a), b)
    decreases |b|
  {
    hide Step, OnWire;
    if b == [] {
      assert a + b == a;
    } else {
      assert (a + b)[..|a + b| - 1] == a + b[..|b| - 1];
      WireConcat(r, a, b[..|b| - 1]);
      RunConcat(r, a, b[..|b| - 1]);
    }
  }

  lemma WireOfOne(r: Radio, op: Op)
    ensures Wire(r, [op]) == OnWire(r, op)
  {
    hide Step, OnWire;
    assert [op][..0] == [];
  }

  function Commits(r: Radio, ops: seq<Op>): seq<Frame> {
    if ops == [] then []
    else
      var n := |ops| - 1;
      Commits(r, ops[..n]) + Committed(Run(r, ops[..n]), ops[n])
  }

  /** The frames committed since the last drain. */
  function Slot(r: Radio, ops: seq<Op>): seq<Frame> {
    if ops == [] then []
    else
      var n := |ops| - 1;
      if ops[n].Drain? then [] else Slot(r, ops[..n]) + Committed(Run(r, ops[..n]), ops[n])
  }

  function LastOf(s: seq<Frame>): seq<Frame> {
    if s == [] then [] else [s[|s| - 1]]
  }

  /** Slot by slot, the last frame committed in it. */
  function LastPerSlot(r: Radio, ops: seq<Op>): seq<Frame> {
    if ops == [] then []
    else
      var n := |ops| - 1;
      LastPerSlot(r, ops[..n]) + if ops[n].Drain? then LastOf(Slot(r, ops[..n])) else []
  }

  lemma StepOutbox(r: Radio, op: Op)
    ensures var e := Step(r, op);
            if Committed(r, op) != [] then e.outbox == Outbox(true, Committed(r, op)[0])
            else if op.Drain? then e.outbox == Outbox(false, r.outbox.frame)
            else e.outbox == r.outbox
  {
    hide WriteAt, BandwidthHz, Outgoing, Register, PllToHz, Kept, Heard;
  }

  /** The wire carries, slot by slot, the last frame committed in the slot and nothing else. */
  lemma {:induction false} WireIsLastPerSlot(r: Radio, ops: seq<Op>)
    requires !r.outbox.waiting
    ensures Wire(r, ops) == LastPerSlot(r, ops)
    ensures (if Run(r, ops).outbox.waiting then [Run(r, ops).outbox.frame] else []) == LastOf(Slot(r, ops))
    decreases |ops|
  {
    hide Step;
    if ops != [] {
      var n := |ops| - 1;
      WireIsLastPerSlot(r, ops[..n]);
      StepOutbox(Run(r, ops[..n]), ops[n]);
    }
  }

  /** What the commits of a run come down to: the frames on the wire, then the one still waiting. */
  function Surviving(r: Radio, ops: seq<Op>): seq<Frame> {
    LastPerSlot(r, ops) + LastOf(Slot(r, ops))
  }

  /** A commit survives, at the expense of the one before it in the same slot. */
  lemma SurvivingNext(r: Radio, ops: seq<Op>)
    requires ops != []
    ensures var front := ops[..|ops| - 1];
            var c := Committed(Run(r, front), ops[|ops| - 1]);
            var before := Surviving(r, front);
            && (Slot(r, front) != [] ==> before != [])
            && Surviving(r, ops) == if c == [] then before
                                    else (if Slot(r, front) == [] then before else before[..|before| - 1]) + c
  {
    hide Run, Committed;
  }

  /** Where in the list of committed frames the surviving ones are. */
  function Positions(r: Radio, ops: seq<Op>): seq<nat> {
    if ops == [] then []
    else
      var n := |ops| - 1;
      var before := Positions(r, ops[..n]);
      if Committed(Run(r, ops[..n]), ops[n]) == [] then before
      else
        var kept := if Slot(r, ops[..n]) == [] || before == [] then before else before[..|before| - 1];
        kept + [|Commits(r, ops[..n])|]
  }

  /** `out` is what stands at these strictly increasing positions of `all`. */
  predicate Placed(at: seq<nat>, out: seq<Frame>, all: seq<Frame>) {
    && |at| == |out|
    && (forall i, j :: 0 <= i < j < |at| ==> at[i] < at[j])
    && (forall i :: 0 <= i < |at| ==> at[i] < |all| && out[i] == all[at[i]])
  }

  lemma PlacedNext(at: seq<nat>, out: seq<Frame>, all: seq<Frame>, c: Frame)
    requires Placed(at, out, all)
    ensures Placed(at + [|all|], out + [c], all + [c])
  {
  }

  lemma PlacedButLast(at: seq<nat>, out: seq<Frame>, all: seq<Frame>)
    requires Placed(at, out, all) && at != []
    ensures Placed(at[..|at| - 1], out[..|at| - 1], all)
  {
  }

  /** Never duplicated, never reordered: the surviving frames sit at strictly increasing positions of the
      list of committed frames. */
  lemma {:induction false} InOrderOnce(r: Radio, ops: seq<Op>)
    ensures Placed(Positions(r, ops), Surviving(r, ops), Commits(r, ops))
    decreases |ops|
  {
    hide Run, Committed, Surviving, Slot, Placed;
    if ops == [] {
      SurvivingNone(r);
      assert Placed([], [], []) by {
        NothingPlaced();
      }
    } else {
      var n := |ops| - 1;
      var front := ops[..n];
      var at, out, all := Positions(r, front), Surviving(r, front), Commits(r, front);
      var c := Committed(Run(r, front), ops[n]);
      InOrderOnce(r, front);
      PlacedLengths(at, out, all);
      SurvivingNext(r, ops);
      if c == [] {
        assert Commits(r, ops) == all;
      } else if Slot(r, front) == [] {
        PlacedNext(at, out, all, c[0]);
        assert [c[0]] == c;
      } else {
        PlacedButLast(at, out, all);
        PlacedNext(at[..|at| - 1], out[..|out| - 1], all, c[0]);
        assert [c[0]] == c;
      }
    }
  }

  lemma NothingPlaced()
    ensures Placed([], [], [])
  {
  }

  lemma PlacedLengths(at: seq<nat>, out: seq<Frame>, all: seq<Frame>)
    requires Placed(at, out, all)
    ensures |at| == |out|
  {
  }

  /** No slot of the run sees a second commit. */
  ghost predicate OnePerSlot(r: Radio, ops: seq<Op>) {
    forall k :: 0 <= k <= |ops| ==> |Slot(r, ops[..k])| <= 1
  }

  /** Nothing is lost if and only if no slot has two commits in it. */
  lemma {:induction false} LosslessIff(r: Radio, ops: seq<Op>)
    ensures |Surviving(r, ops)| <= |Commits(r, ops)|
    ensures Surviving(r, ops) == Commits(r, ops) <==> OnePerSlot(r, ops)
    ensures |Surviving(r, ops)| == |Commits(r, ops)| ==> OnePerSlot(r, ops)
    decreases |ops|
  {
    hide Run, Committed, Surviving;
    if ops != [] {
      var n := |ops| - 1;
      LosslessIff(r, ops[..n]);
      SurvivingNext(r, ops);
      OnePerSlotNext(r, ops);
      assert OnePerSlot(r, ops[..n]) ==> |Slot(r, ops[..n])| <= 1 by {
        assert ops[..n][..n] == ops[..n];
      }
      var c := Committed(Run(r, ops[..n]), ops[n]);
      if OnePerSlot(r, ops) {
        assert c != [] ==> Slot(r, ops[..n]) == [];
      } else if OnePerSlot(r, ops[..n]) {
        assert |c| == 1 && Slot(r, ops[..n]) != [];
      }
    } else {
      assert ops[..0] == ops;
      SurvivingNone(r);
    }
  }

  lemma SurvivingNone(r: Radio)
    ensures Surviving(r, []) == []
  {
  }

  lemma OnePerSlotNext(r: Radio, ops: seq<Op>)
    requires ops != []
    ensures OnePerSlot(r, ops) <==> OnePerSlot(r, ops[..|ops| - 1]) && |Slot(r, ops)| <= 1
  {
    hide Slot;
    var n := |ops| - 1;
    var front := ops[..n];
    assert ops[..n + 1] == ops;
    if OnePerSlot(r, front) && |Slot(r, ops)| <= 1 {
      forall k | 0 <= k <= n + 1 ensures |Slot(r, ops[..k])| <= 1 {
        if k <= n {
          assert ops[..k] == front[..k];
        }
      }
    }
    if OnePerSlot(r, ops) {
      forall k | 0 <= k <= n ensures |Slot(r, front[..k])| <= 1 {
        assert ops[..k] == front[..k];
      }
      assert |Slot(r, ops[..n + 1])| <= 1;
    }
  }
}
