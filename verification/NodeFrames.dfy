/**
 * Reading a frame on a native node. There every transfer takes time, time ticks the chip, and a tick in receive
 * mode delivers the next waiting frame; so the very commands that fetch a frame can bring the next one down on it.
 * What a driver gets is determined exactly, and with it when that is the frame.
 */
module NodeFrames {
  import opened Bytes
  import opened Radio
  import opened Clocking
  import opened Frames
  import opened NodeClock

  /** The chip holds this frame and says so. */
  ghost predicate InPlace(r: Radio, frame: seq<byte>) {
    r.rxLen == |frame| && r.rxBase + |frame| <= |r.buffer| && StandsAt(r.buffer, r.rxBase, frame)
  }

  lemma DeliveredInPlace(r: Radio, at: nat)
    requires r.mode == Rx && r.inbox != [] && r.rxBase + |Kept(r.inbox[0])| <= |r.buffer|
    ensures InPlace(TickTo(r, at), Kept(r.inbox[0]))
  {
    TickDelivers(r, at);
    hide TickTo, Kept;
  }

  /** What comes back of one transfer: the answer of the chip as it stands once the transfer's time is spent. */
  function Transferred(h: Hal, out: seq<byte>): seq<byte> {
    Reply(StepHal(h, Fw(Wait(30 + 2 * |out|))).chip.radio, out)
  }

  /** The two transfers of a driver fetching a frame: a status command of n bytes, then a read of what it says. */
  function Fetched(h: Hal, n: nat): seq<byte>
    requires n >= 1
  {
    var status := Transferred(h, StatusCommand(n));
    var after := StepHal(h, Fw(Transfer(StatusCommand(n))));
    Transferred(after, ReadCommand(ByteAt(status, 3), ByteAt(status, 2)))[3..]
  }

  /** What the next tick delivers, if it delivers. */
  predicate Delivers(r: Radio) {
    r.mode == Rx && r.inbox != []
  }

  /** The frame the status command finds in place, where `frame` was: the next one, if one was delivered. */
  function Found(r: Radio, frame: seq<byte>): seq<byte> {
    if Delivers(r) then Kept(r.inbox[0]) else frame
  }

  /** What is delivered on top of it before it is read. */
  function OnTop(r: Radio): seq<byte> {
    if Delivers(r) && |r.inbox| > 1 then Kept(r.inbox[1]) else []
  }

  function Overlaid(under: seq<byte>, over: seq<byte>): (s: seq<byte>)
    ensures |s| == |under|
  {
    seq(|under|, i requires 0 <= i < |under| => if i < |over| then over[i] else under[i])
  }

  /** The buffer by the time it is read. */
  function BufferBy(r: Radio): seq<byte> {
    var found := if Delivers(r) then WriteAt(r.buffer, r.rxBase, Kept(r.inbox[0])) else r.buffer;
    WriteAt(found, r.rxBase, OnTop(r))
  }

  function FromZero(buffer: seq<byte>, len: nat): (s: seq<byte>)
    ensures |s| == len
  {
    seq(len, i requires 0 <= i => ByteAt(buffer, i))
  }

  lemma TwoTicks(r: Radio, at1: nat, at2: nat)
    ensures TickTo(TickTo(r, at1), at2).buffer == BufferBy(r)
  {
    TickBuffer(r, at1);
    TickBuffer(TickTo(r, at1), at2);
    hide TickTo, Kept;
  }

  /** Exactly what is fetched, for every length of the status command: five bytes, or four with the base at zero, get
      the frame found, overlaid with the one that came down on it; four as many bytes from offset zero of the buffer
      by then, wherever the frame is; and fewer get nothing. */
  lemma FetchedIs(h: Hal, frame: seq<byte>, n: nat)
    requires n >= 1 && InPlace(h.chip.radio, frame)
    requires Delivers(h.chip.radio) ==> h.chip.radio.rxBase + |Kept(h.chip.radio.inbox[0])| <= |h.chip.radio.buffer|
    ensures var r := h.chip.radio;
            var whole := Overlaid(Found(r, frame), OnTop(r));
            && (n >= 5 || (n == 4 && r.rxBase == 0) ==> Fetched(h, n) == whole)
            && (n == 4 ==> Fetched(h, n) == FromZero(BufferBy(r), |whole|))
            && (n < 4 ==> Fetched(h, n) == [])
  {
    hide Reply, StatusCommand, ReadCommand, TickTo, Kept, StepHal, Exec, InPlace, Delivers, Overlaid, Transferred;
    var r, out := h.chip.radio, StatusCommand(n);
    var at1 := (h.localUs + (30 + 2 * |out|)) / 1000;
    var a := TickTo(r, at1);
    TransferTicks(h, out);
    ReadsNothing(a, n);
    TickAbout(r, at1, frame);
    StatusReply(a, n);
    var status := Reply(a, out);
    var base, len := ByteAt(status, 3), ByteAt(status, 2);
    var after := StepHal(h, Fw(Transfer(out)));
    var at2 := (after.localUs + (30 + 2 * |ReadCommand(base, len)|)) / 1000;
    TransferTicks(after, ReadCommand(base, len));
    ReadReply(TickTo(a, at2), base, len);
    InPlaceLength(a, Found(r, frame));
    OverlaidLength(Found(r, frame), OnTop(r));
    TwoTicks(r, at1, at2);
    hide BufferBy;
    if n >= 5 || (n == 4 && r.rxBase == 0) {
      ReadOverlaid(a, at2, Found(r, frame));
    }
  }

  lemma InPlaceLength(r: Radio, frame: seq<byte>)
    requires InPlace(r, frame)
    ensures |frame| == r.rxLen
  {
  }

  lemma OverlaidLength(under: seq<byte>, over: seq<byte>)
    ensures |Overlaid(under, over)| == |under|
  {
  }

  /** Reading a frame in place after one more tick. */
  lemma ReadOverlaid(r: Radio, at: nat, frame: seq<byte>)
    requires InPlace(r, frame)
    ensures Reply(TickTo(r, at), ReadCommand(r.rxBase, r.rxLen))[3..]
              == Overlaid(frame, if Delivers(r) then Kept(r.inbox[0]) else [])
  {
    hide Reply, ReadCommand, TickTo, Kept;
    TickBuffer(r, at);
    ReadReply(TickTo(r, at), r.rxBase, r.rxLen);
  }

  /** A transfer spends its time, and then the chip acts as it would at once. */
  lemma TransferTicks(h: Hal, out: seq<byte>)
    ensures var ticked := TickTo(h.chip.radio, (h.localUs + (30 + 2 * |out|)) / 1000);
            && Transferred(h, out) == Reply(ticked, out)
            && StepHal(h, Fw(Transfer(out))).chip.radio == Exec(ticked, out)
  {
    hide TickTo, Apply, Decode, Reply;
  }

  lemma ReadsNothing(r: Radio, n: nat)
    requires n >= 1
    ensures Exec(r, StatusCommand(n)) == r
  {
    assert StatusCommand(n)[0] == GET_RX_BUFFER_STATUS;
    ReadsChangeNothing(r, StatusCommand(n));
    hide Exec;
  }

  /** What a tick does to the frame in place and to those that wait. */
  lemma TickAbout(r: Radio, at: nat, frame: seq<byte>)
    requires InPlace(r, frame)
    requires Delivers(r) ==> r.rxBase + |Kept(r.inbox[0])| <= |r.buffer|
    ensures var e := TickTo(r, at);
            && InPlace(e, Found(r, frame)) && e.rxBase == r.rxBase
            && (if Delivers(e) then Kept(e.inbox[0]) else []) == OnTop(r)
  {
    TickBuffer(r, at);
    if Delivers(r) {
      WrittenStands(r.buffer, r.rxBase, Kept(r.inbox[0]));
    }
    hide TickTo, Kept, WriteAt, StandsAt;
  }

  lemma WrittenStands(buffer: seq<byte>, base: nat, data: seq<byte>)
    requires base + |data| <= |buffer|
    ensures StandsAt(WriteAt(buffer, base, data), base, data)
  {
  }

  lemma TickBuffer(r: Radio, at: nat)
    ensures var e := TickTo(r, at);
            && e.mode == r.mode && e.rxBase == r.rxBase && |e.buffer| == |r.buffer|
            && e.inbox == (if Delivers(r) then r.inbox[1..] else r.inbox)
            && e.rxLen == (if Delivers(r) then |Kept(r.inbox[0])| else r.rxLen)
            && e.buffer == (if Delivers(r) then WriteAt(r.buffer, r.rxBase, Kept(r.inbox[0])) else r.buffer)
  {
    hide WriteAt, Heard, Kept;
  }

  // ---- when the frame comes back ----

  /** With a status command long enough, the frame in place comes back if and only if the chip is out of receive mode,
      or no frame waits, or those that come down on the way happen to say the same. */
  lemma FrameComesBackIff(h: Hal, frame: seq<byte>, n: nat)
    requires InPlace(h.chip.radio, frame) && (n >= 5 || (n == 4 && h.chip.radio.rxBase == 0))
    requires Delivers(h.chip.radio) ==> h.chip.radio.rxBase + |Kept(h.chip.radio.inbox[0])| <= |h.chip.radio.buffer|
    ensures var r := h.chip.radio;
            Fetched(h, n) == frame <==>
              r.mode != Rx || r.inbox == [] || Overlaid(Kept(r.inbox[0]), OnTop(r)) == frame
  {
    FetchedIs(h, frame, n);
    hide Fetched, Kept;
    assert Overlaid(frame, []) == frame;
  }

  /** Out of receive mode, or with nothing waiting, the length of the status command alone decides, as on the bare
      chip. */
  lemma QuietFetchIff(h: Hal, frame: seq<byte>, n: nat)
    requires n >= 1 && InPlace(h.chip.radio, frame) && !Delivers(h.chip.radio)
    ensures Fetched(h, n) == frame <==> n >= 5 || frame == [] || (n == 4 && StandsAt(h.chip.radio.buffer, 0, frame))
  {
    hide Reply, StatusCommand, ReadCommand, TickTo, StepHal, Exec, InPlace, Transferred, StandsAt;
    var r, out := h.chip.radio, StatusCommand(n);
    var at1 := (h.localUs + (30 + 2 * |out|)) / 1000;
    var a := TickTo(r, at1);
    TransferTicks(h, out);
    ReadsNothing(a, n);
    TickBuffer(r, at1);
    StatusReply(a, n);
    var status := Reply(a, out);
    var base, len := ByteAt(status, 3), ByteAt(status, 2);
    var after := StepHal(h, Fw(Transfer(out)));
    TransferTicks(after, ReadCommand(base, len));
    TickBuffer(a, (after.localUs + (30 + 2 * |ReadCommand(base, len)|)) / 1000);
    InPlaceLength(r, frame);
    Read(TickTo(a, (after.localUs + (30 + 2 * |ReadCommand(base, len)|)) / 1000), base, frame);
    if n >= 5 {
      assert StandsAt(r.buffer, r.rxBase, frame) by {
        InPlaceStands(r, frame);
      }
    }
  }

  lemma InPlaceStands(r: Radio, frame: seq<byte>)
    requires InPlace(r, frame)
    ensures StandsAt(r.buffer, r.rxBase, frame)
  {
  }

  // ---- two and three frames in a row ----

  /** A new node that has set its radio to receive, with these frames on their way and the first of them delivered. */
  function Received(frames: seq<Frame>): Hal {
    StepHal(Queued(frames), BeginTick(1))
  }

  function Queued(frames: seq<Frame>): Hal {
    if frames == [] then StepHal(PowerUpHal(0), Fw(Transfer([SET_RX])))
    else StepHal(Queued(frames[..|frames| - 1]), Engine(PushFrame(frames[|frames| - 1])))
  }

  predicate Empty(r: Radio, waiting: seq<Frame>) {
    r.mode == Rx && r.rxBase == 0 && |r.buffer| == BUFFER_SIZE && r.inbox == waiting
  }

  lemma {:induction false} QueuedWaits(frames: seq<Frame>)
    ensures Empty(Queued(frames).chip.radio, frames)
    decreases |frames|
  {
    if frames == [] {
      Opened();
    } else {
      hide Queued;
      var n := |frames| - 1;
      QueuedWaits(frames[..n]);
      assert Queued(frames) == StepHal(Queued(frames[..n]), Engine(PushFrame(frames[n]))) by {
        QueuedNext(frames);
      }
      assert frames[..n] + [frames[n]] == frames;
    }
  }

  lemma QueuedNext(frames: seq<Frame>)
    requires frames != []
    ensures Queued(frames) == StepHal(Queued(frames[..|frames| - 1]), Engine(PushFrame(frames[|frames| - 1])))
  {
    hide StepHal;
  }

  lemma Opened()
    ensures Empty(Queued([]).chip.radio, [])
  {
    var h := PowerUpHal(0);
    TransferTicks(h, [SET_RX]);
    TickBuffer(h.chip.radio, (h.localUs + 32) / 1000);
    assert h.chip.radio.mode == Standby && h.chip.radio.inbox == [] && h.chip.radio.rxBase == 0;
    assert |h.chip.radio.buffer| == BUFFER_SIZE;
    hide PowerUpHal, TickTo;
    assert Decode([SET_RX]) == EnterMode(Rx);
    hide StepHal, Decode;
  }

  lemma ReceivedHolds(frames: seq<Frame>)
    requires frames != [] && |frames[0]| <= 255
    ensures var r := Received(frames).chip.radio;
            && InPlace(r, frames[0]) && r.mode == Rx && r.rxBase == 0
            && |r.buffer| == BUFFER_SIZE && r.inbox == frames[1..]
  {
    QueuedWaits(frames);
    var h := Queued(frames);
    var at := (if h.localUs >= 1000 then h.localUs else 1000) / 1000;
    TickBuffer(h.chip.radio, at);
    DeliveredInPlace(h.chip.radio, at);
    assert Kept(frames[0]) == frames[0];
    hide TickTo, Queued, InPlace;
  }

  /** Whatever the frames are, the second is what is found, and a third comes down on it. */
  lemma InARow(a: Frame, b: Frame, rest: seq<Frame>)
    requires |a| <= 255 && |b| <= 255
    ensures Fetched(Received([a, b] + rest), 5) == Overlaid(b, if rest == [] then [] else Kept(rest[0]))
  {
    var h := Received([a, b] + rest);
    ReceivedHolds([a, b] + rest);
    assert ([a, b] + rest)[1..] == [b] + rest && Kept(b) == b;
    hide Received, Fetched, InPlace, Overlaid, Kept;
    FetchedIs(h, a, 5);
  }

  /** Two frames in a row: the driver asks about [1] and gets [2]. */
  lemma NextFrameFetched()
    ensures Fetched(Received([[1], [2]]), 5) == [2]
  {
    InARow([1], [2], []);
    hide Received, Fetched;
    assert [[1], [2]] + [] == [[1], [2]];
    assert Overlaid([2], []) == [2];
  }

  /** Three in a row: what it gets is [3, 2], which nobody sent. */
  lemma TornFrameFetched()
    ensures Fetched(Received([[1], [2, 2], [3]]), 5) == [3, 2]
  {
    InARow([1], [2, 2], [[3]]);
    hide Received, Fetched;
    assert [[1], [2, 2]] + [[3]] == [[1], [2, 2], [3]];
    assert Kept([3]) == [3] && Overlaid([2, 2], [3]) == [3, 2];
  }
}
