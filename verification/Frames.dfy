/**
 * Received frames: none is lost, duplicated or reordered between the simulator and the
 * chip's buffer, and what the driver reads back is the frame.
 */
module Frames {
  import opened Bytes
  import opened Radio
  import opened Clocking

  type Frame = seq<byte>

  /** The frame a tick takes off the queue: exactly one if the chip is receiving and any waits. */
  function Delivery(r: Radio, op: Op): seq<Frame> {
    if op.Tick? && r.mode == Rx && r.inbox != [] then [r.inbox[0]] else []
  }

  function Delivered(r: Radio, ops: seq<Op>): seq<Frame> {
    if ops == [] then []
    else
      var n := |ops| - 1;
      Delivered(r, ops[..n]) + Delivery(Run(r, ops[..n]), ops[n])
  }

  function Pushed(ops: seq<Op>): seq<Frame> {
    if ops == [] then []
    else
      var n := |ops| - 1;
      Pushed(ops[..n]) + if ops[n].PushFrame? then [ops[n].frame] else []
  }

  lemma StepQueue(r: Radio, op: Op)
    ensures r.inbox + (if op.PushFrame? then [op.frame] else []) == Delivery(r, op) + Step(r, op).inbox
  {
    hide WriteAt, Heard, Decode, BandwidthHz, Outgoing, Kept;
    if op.Tick? && r.mode == Rx && r.inbox != [] {
      assert r.inbox == [r.inbox[0]] + r.inbox[1..];
    }
  }

  /** At every moment of every run: what was waiting and what was pushed is what was delivered and
      what is still waiting, in order. */
  lemma {:induction false} FramesConserved(r: Radio, ops: seq<Op>)
    ensures r.inbox + Pushed(ops) == Delivered(r, ops) + Run(r, ops).inbox
    decreases |ops|
  {
    hide Step, Delivery;
    if ops != [] {
      var n := |ops| - 1;
      var m := Run(r, ops[..n]);
      FramesConserved(r, ops[..n]);
      StepQueue(m, ops[n]);
      var pushed := if ops[n].PushFrame? then [ops[n].frame] else [];
      calc {
        r.inbox + Pushed(ops);
        (r.inbox + Pushed(ops[..n])) + pushed;
        (Delivered(r, ops[..n]) + m.inbox) + pushed;
        Delivered(r, ops[..n]) + (m.inbox + pushed);
        Delivered(r, ops[..n]) + (Delivery(m, ops[n]) + Run(r, ops).inbox);
        Delivered(r, ops) + Run(r, ops).inbox;
      }
    }
  }

  // ---- reading a frame back ----

  /** A frame is kept whole up to 255 bytes, and its first 255 of more. */
  lemma KeptIs(frame: seq<byte>)
    ensures |frame| <= 255 ==> Kept(frame) == frame
    ensures |frame| > 255 ==> Kept(frame) == frame[..255]
  {
  }

  /** The operation neither writes the data buffer by command nor moves its base. */
  predicate LeavesBuffer(op: Op) {
    op.Command? && op.out != [] ==> !Decode(op.out).StoreBuffer? && !Decode(op.out).BufferBase?
  }

  ghost predicate Quiet(r: Radio, ops: seq<Op>) {
    forall k :: 0 <= k < |ops| ==> LeavesBuffer(ops[k]) && Delivery(Run(r, ops[..k]), ops[k]) == []
  }

  lemma StepHolds(r: Radio, op: Op)
    requires LeavesBuffer(op) && Delivery(r, op) == []
    ensures var e := Step(r, op); e.buffer == r.buffer && e.rxLen == r.rxLen && e.rxBase == r.rxBase
  {
    hide TickTo, Apply, Decode;
    if op.Tick? {
      TickHolds(r, op.at);
    } else if op.Command? && op.out != [] {
      ActionHolds(r, Decode(op.out));
    }
  }

  lemma TickHolds(r: Radio, at: nat)
    requires Delivery(r, Tick(at)) == []
    ensures var e := TickTo(r, at); e.buffer == r.buffer && e.rxLen == r.rxLen && e.rxBase == r.rxBase
  {
    hide WriteAt, Heard, Kept;
  }

  lemma ActionHolds(r: Radio, a: Action)
    requires !a.StoreBuffer?
    ensures var e := Apply(r, a);
            e.buffer == r.buffer && e.rxLen == r.rxLen && (!a.BufferBase? ==> e.rxBase == r.rxBase)
  {
    hide WriteAt, BandwidthHz, Outgoing;
  }

  lemma {:induction false} RunHolds(r: Radio, ops: seq<Op>)
    requires Quiet(r, ops)
    ensures var e := Run(r, ops); e.buffer == r.buffer && e.rxLen == r.rxLen && e.rxBase == r.rxBase
    decreases |ops|
  {
    hide Step, Delivery, LeavesBuffer;
    if ops != [] {
      var n := |ops| - 1;
      var front := ops[..n];
      forall k | 0 <= k < n ensures LeavesBuffer(front[k]) && Delivery(Run(r, front[..k]), front[k]) == [] {
        assert ops[..k] == front[..k] && ops[k] == front[k];
      }
      RunHolds(r, front);
      assert LeavesBuffer(ops[n]) && Delivery(Run(r, ops[..n]), ops[n]) == [];
      StepHolds(Run(r, front), ops[n]);
    }
  }

  /** The operation writes nothing to the data buffer by command. It may move its bases. */
  predicate LeavesBytes(op: Op) {
    op.Command? && op.out != [] ==> !Decode(op.out).StoreBuffer?
  }

  ghost predicate Undisturbed(r: Radio, ops: seq<Op>) {
    forall k :: 0 <= k < |ops| ==> LeavesBytes(ops[k]) && Delivery(Run(r, ops[..k]), ops[k]) == []
  }

  lemma StepLeavesBytes(r: Radio, op: Op)
    requires LeavesBytes(op) && Delivery(r, op) == []
    ensures Step(r, op).buffer == r.buffer
  {
    hide TickTo, Apply, Decode;
    if op.Tick? {
      TickHolds(r, op.at);
    } else if op.Command? && op.out != [] {
      ActionHolds(r, Decode(op.out));
    }
  }

  lemma {:induction false} BufferHolds(r: Radio, ops: seq<Op>)
    requires Undisturbed(r, ops)
    ensures Run(r, ops).buffer == r.buffer
    decreases |ops|
  {
    hide Step, Delivery, LeavesBytes;
    if ops != [] {
      var n := |ops| - 1;
      var front := ops[..n];
      forall k | 0 <= k < n ensures LeavesBytes(front[k]) && Delivery(Run(r, front[..k]), front[k]) == [] {
        assert ops[..k] == front[..k] && ops[k] == front[k];
      }
      BufferHolds(r, front);
      assert LeavesBytes(ops[n]) && Delivery(Run(r, ops[..n]), ops[n]) == [];
      StepLeavesBytes(Run(r, front), ops[n]);
    }
  }

  function ReadCommand(base: byte, len: nat): (cmd: seq<byte>)
    ensures |cmd| == 3 + len
  {
    [READ_BUFFER, base, 0] + seq(len, _ => 0)
  }

  /** The status command as n bytes. */
  function StatusCommand(n: nat): (cmd: seq<byte>)
    requires n >= 1
    ensures |cmd| == n
  {
    [GET_RX_BUFFER_STATUS] + seq(n - 1, _ => 0)
  }

  /** Ask chip a where its frame is with n bytes, and read that much there from chip b, every command handed over
      whole. A byte of status that is not clocked counts as zero. */
  function FetchWhole(a: Radio, b: Radio, n: nat): seq<byte>
    requires n >= 1
  {
    var status := Reply(a, StatusCommand(n));
    Reply(b, ReadCommand(ByteAt(status, 3), ByteAt(status, 2)))[3..]
  }

  /** The same, every command clocked by bytes. */
  function FetchByBytes(a: Radio, b: Radio, n: nat): seq<byte>
    requires n >= 1
  {
    var status := StreamedReply(a, StatusCommand(n));
    StreamedReply(b, ReadCommand(ByteAt(status, 3), ByteAt(status, 2)))[3..]
  }

  ghost predicate StandsAt(buffer: seq<byte>, base: nat, data: seq<byte>) {
    forall i :: 0 <= i < |data| ==> ByteAt(buffer, base + i) == data[i]
  }

  /** After a tick that delivers a frame: ask where it is at any later point, read at any point after that, with nothing
      else on the way than what neither delivers again nor rewrites the buffer. Then commands handed over whole bring
      back the frame, up to the 255 bytes a length register can count, if and only if the status command has five
      bytes or more, or has four and the frame happens to stand at offset zero, or nothing was to be read. */
  lemma StatusThenReadIff(r: Radio, at: nat, ops: seq<Op>, k: nat, n: nat)
    requires r.mode == Rx && r.inbox != [] && n >= 1 && k <= |ops|
    requires r.rxBase + |Kept(r.inbox[0])| <= |r.buffer|
    requires Quiet(TickTo(r, at), ops)
    ensures var d, kept := TickTo(r, at), Kept(r.inbox[0]);
            && (FetchWhole(Run(d, ops[..k]), Run(d, ops), n) == kept <==>
                  n >= 5 || kept == [] || (n == 4 && StandsAt(Run(d, ops).buffer, 0, kept)))
            && (r.rxBase == 0 ==> StandsAt(Run(d, ops).buffer, 0, kept))
  {
    hide Reply, ReplyAt, ReadCommand, StatusCommand;
    var d, kept := TickTo(r, at), Kept(r.inbox[0]);
    var a, b := Run(d, ops[..k]), Run(d, ops);
    FrameInPlace(r, at, ops, k);
    hide TickTo, Run, Kept, Quiet;
    StatusReply(a, n);
    var status := Reply(a, StatusCommand(n));
    Read(b, ByteAt(status, 3), kept);
  }

  /** Clocked by bytes the same round trip needs one byte less: four bytes of status are enough, wherever the frame
      is. */
  lemma StatusThenReadByBytesIff(r: Radio, at: nat, ops: seq<Op>, k: nat, n: nat)
    requires r.mode == Rx && r.inbox != [] && n >= 1 && k <= |ops| && Sized(r)
    requires r.rxBase + |Kept(r.inbox[0])| <= |r.buffer|
    requires Quiet(TickTo(r, at), ops)
    ensures var d, kept := TickTo(r, at), Kept(r.inbox[0]);
            FetchByBytes(Run(d, ops[..k]), Run(d, ops), n) == kept <==>
              n >= 4 || kept == [] || (n == 3 && StandsAt(Run(d, ops).buffer, 0, kept))
  {
    hide Reply, ReplyAt, StreamedReply, ReadCommand, StatusCommand;
    var d, kept := TickTo(r, at), Kept(r.inbox[0]);
    var a, b := Run(d, ops[..k]), Run(d, ops);
    FrameInPlace(r, at, ops, k);
    StepKeepsSize(r, Tick(at));
    OpsKeepSize(d, ops[..k]);
    OpsKeepSize(d, ops);
    hide TickTo, Run, Kept, Quiet, Sized;
    StreamedStatus(a, n);
    var status := StreamedReply(a, StatusCommand(n));
    ReadAlike(b, ByteAt(status, 3), ByteAt(status, 2));
    Read(b, ByteAt(status, 3), kept);
  }

  /** Four bytes, handed over whole, with the receive base at one: the driver is told to read at zero, and does not
      get the frame it would get byte by byte. */
  lemma FourByteStatusMissesFrame()
    ensures var e := Run(PowerUp(0), [Command([SET_BUFFER_BASE, 0, 1]), Command([SET_RX]), PushFrame([7]), Tick(0)]);
            FetchWhole(e, e, 4) == [0] && FetchByBytes(e, e, 4) == [7]
  {
    hide Run, TickTo, PowerUp, FetchWhole, FetchByBytes, Sized;
    var start := [Command([SET_BUFFER_BASE, 0, 1]), Command([SET_RX]), PushFrame([7])];
    var ops := start + [Tick(0)];
    Started();
    assert ops[..3] == start && ops[..4] == ops;
    assert ops == [Command([SET_BUFFER_BASE, 0, 1]), Command([SET_RX]), PushFrame([7]), Tick(0)];
    RunNext(PowerUp(0), ops, 3);
    SevenDelivered(Run(PowerUp(0), start));
    FourBytes(TickTo(Run(PowerUp(0), start), 0));
  }

  lemma SevenDelivered(r: Radio)
    requires r.mode == Rx && r.inbox == [[7]] && r.rxBase == 1 && Sized(r) && r.buffer[0] == 0
    ensures var e := TickTo(r, 0);
            Sized(e) && e.rxLen == 1 && e.rxBase == 1 && e.buffer[0] == 0 && e.buffer[1] == 7
  {
    TickDelivers(r, 0);
    StepKeepsSize(r, Tick(0));
    hide TickTo;
  }

  lemma FourBytes(e: Radio)
    requires Sized(e) && e.rxLen == 1 && e.rxBase == 1 && e.buffer[0] == 0 && e.buffer[1] == 7
    ensures FetchWhole(e, e, 4) == [0] && FetchByBytes(e, e, 4) == [7]
  {
    hide Reply, StreamedReply, StatusCommand, ReadCommand;
    StatusReply(e, 4);
    StreamedStatus(e, 4);
    ReadAlike(e, 1, 1);
    Read(e, 0, [0]);
    Read(e, 1, [7]);
  }

  lemma Started()
    ensures var r := Run(PowerUp(0), [Command([SET_BUFFER_BASE, 0, 1]), Command([SET_RX]), PushFrame([7])]);
            r.mode == Rx && r.inbox == [[7]] && r.rxBase == 1 && Sized(r) && r.buffer[0] == 0
  {
    var p := PowerUp(0);
    var ops := [Command([SET_BUFFER_BASE, 0, 1]), Command([SET_RX]), PushFrame([7])];
    RunNext(p, ops, 0);
    RunNext(p, ops, 1);
    RunNext(p, ops, 2);
    assert ops[..0] == [] && ops[..3] == ops;
    PowerUpSized(0);
    OpsKeepSize(p, ops);
    hide Run, PowerUp;
    var a, b := Run(p, ops[..1]), Run(p, ops[..2]);
    assert a == p.(txBase := 0, rxBase := 1) by {
      assert Decode([SET_BUFFER_BASE, 0, 1]) == BufferBase(0, 1);
    }
    assert b == a.(mode := Rx) by {
      assert Decode([SET_RX]) == EnterMode(Rx);
    }
    EmptyAtPowerUp();
  }

  lemma EmptyAtPowerUp()
    ensures PowerUp(0).inbox == [] && PowerUp(0).buffer != [] && PowerUp(0).buffer[0] == 0
  {
  }

  /** What a delivery leaves for later. */
  lemma FrameInPlace(r: Radio, at: nat, ops: seq<Op>, k: nat)
    requires r.mode == Rx && r.inbox != [] && k <= |ops|
    requires r.rxBase + |Kept(r.inbox[0])| <= |r.buffer|
    requires Quiet(TickTo(r, at), ops)
    ensures var d, kept := TickTo(r, at), Kept(r.inbox[0]);
            var a, b := Run(d, ops[..k]), Run(d, ops);
            && a.rxLen == |kept| && a.rxBase == r.rxBase && StandsAt(b.buffer, r.rxBase, kept)
  {
    hide Run;
    var d := TickTo(r, at);
    TickDelivers(r, at);
    RunHolds(d, ops);
    forall j | 0 <= j < k ensures LeavesBuffer(ops[..k][j]) && Delivery(Run(d, ops[..k][..j]), ops[..k][j]) == [] {
      assert ops[..k][..j] == ops[..j] && ops[..k][j] == ops[j];
    }
    RunHolds(d, ops[..k]);
    hide TickTo, Kept, LeavesBuffer, Delivery;
  }

  lemma StatusReply(r: Radio, n: nat)
    requires n >= 1
    ensures var status := Reply(r, StatusCommand(n));
            && ByteAt(status, 2) == (if n >= 4 then r.rxLen else 0)
            && ByteAt(status, 3) == (if n >= 5 then r.rxBase else 0)
  {
    assert StatusCommand(n)[0] == GET_RX_BUFFER_STATUS;
  }

  lemma StreamedStatus(r: Radio, n: nat)
    requires n >= 1 && Sized(r)
    ensures var status := StreamedReply(r, StatusCommand(n));
            && ByteAt(status, 2) == (if n >= 3 then r.rxLen else 0)
            && ByteAt(status, 3) == (if n >= 4 then r.rxBase else 0)
  {
    var cmd := StatusCommand(n);
    assert cmd[0] == GET_RX_BUFFER_STATUS;
    StatusReply(r, n);
    hide StatusCommand, Reply, StreamedReply;
    if n >= 3 {
      ReplyByteApart(r, cmd, 2);
    }
    if n >= 4 {
      ReplyByteApart(r, cmd, 3);
    }
  }

  /** A buffer is read alike either way. */
  lemma ReadAlike(r: Radio, base: byte, len: byte)
    requires Sized(r)
    ensures StreamedReply(r, ReadCommand(base, len)) == Reply(r, ReadCommand(base, len))
  {
    var cmd := ReadCommand(base, len);
    assert cmd[0] == READ_BUFFER;
    hide ReadCommand, Reply, StreamedReply;
    forall i | 0 <= i < |cmd| ensures StreamedReply(r, cmd)[i] == Reply(r, cmd)[i] {
      ReplyByteApart(r, cmd, i);
    }
  }

  /** Reading as many bytes as some data has gives the data exactly where it stands. */
  lemma Read(r: Radio, base: byte, data: seq<byte>)
    requires |data| <= 255
    ensures Reply(r, ReadCommand(base, |data|))[3..] == data <==> StandsAt(r.buffer, base, data)
    ensures Reply(r, ReadCommand(base, 0))[3..] == []
  {
    ReadReply(r, base, |data|);
    ReadReply(r, base, 0);
    hide Reply, ReadCommand;
    var reply := Reply(r, ReadCommand(base, |data|))[3..];
    if reply == data {
      assert forall i :: 0 <= i < |data| ==> reply[i] == data[i];
    }
  }

  lemma ReadReply(r: Radio, base: byte, len: nat)
    ensures var reply := Reply(r, ReadCommand(base, len))[3..];
            |reply| == len && forall i :: 0 <= i < len ==> reply[i] == ByteAt(r.buffer, base + i)
  {
    var cmd := ReadCommand(base, len);
    var reply := Reply(r, cmd);
    assert cmd[0] == READ_BUFFER && cmd[1] == base;
    forall i | 0 <= i < len ensures reply[3..][i] == ByteAt(r.buffer, base + i) {
      assert reply[3 + i] == ReplyAt(r, cmd, 3 + i);
    }
  }

  lemma TickDelivers(r: Radio, at: nat)
    requires r.mode == Rx && r.inbox != []
    ensures var e, kept := TickTo(r, at), Kept(r.inbox[0]);
            e.buffer == WriteAt(r.buffer, r.rxBase, kept) && e.rxLen == |kept| && e.rxBase == r.rxBase
  {
    hide WriteAt, Heard, Kept;
  }
}
