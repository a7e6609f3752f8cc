/**
 * What is seen from outside, byte for byte: the answers on the SPI bus, the interrupt line, and the record of a new
 * chip. Everything here is in the numbers of the datasheet and of the wire.
 */
module Bus {
  import opened Arithmetic
  import opened Bytes
  import opened Radio
  import opened Clocking
  import opened Stats
  import opened Wire
  import opened Settings
  import History
  import Server = RadioServer
  import Bridge

  // ---- answers ----

  /** What the two forms answer to a command, as far as they are alike. */
  predicate BothAnswer(r: Radio, cmd: seq<byte>, i: nat, value: byte) {
    i < |cmd| ==> Reply(r, cmd)[i] == value && StreamedReply(r, cmd)[i] == value
  }

  lemma Alike(r: Radio, cmd: seq<byte>, i: nat, value: byte)
    requires Sized(r) && i < |cmd| && !AnsweredApart(cmd, i) && Reply(r, cmd)[i] == value
    ensures BothAnswer(r, cmd, i, value)
  {
    hide Reply, StreamedReply, AnsweredApart;
    ReplyByteApart(r, cmd, i);
  }

  /** Every reply begins with zero and the status byte. */
  lemma StatusByte(r: Radio, cmd: seq<byte>)
    requires Sized(r)
    ensures BothAnswer(r, cmd, 0, 0) && BothAnswer(r, cmd, 1, 0x22)
  {
    hide StreamReply, StreamedReply, ByteAt, High, Low;
    if |cmd| > 0 {
      Alike(r, cmd, 0, 0);
    }
    if |cmd| > 1 {
      Alike(r, cmd, 1, 0x22);
    }
  }

  /** After any run whose last measurement is (rssi, snr), GetPacketStatus of any length answers strength, quality and
      strength again, as far as it reaches and nothing after, clocked either way. */
  lemma PacketStatus(r: Radio, ops: seq<Op>, k: nat, cmd: seq<byte>, i: nat)
    requires Sized(r) && k < |ops| && ops[k].LastSignal? && forall j :: k < j < |ops| ==> !ops[j].LastSignal?
    requires cmd != [] && cmd[0] == 0x14 && 2 <= i
    ensures BothAnswer(Run(r, ops), cmd, i, if i == 2 || i == 4 then ops[k].rssi else if i == 3 then ops[k].snr else 0)
  {
    hide Run, StreamReply, StreamedReply;
    History.SignalIsLastMeasured(r, ops, k);
    OpsKeepSize(r, ops);
    var e := Run(r, ops);
    if i < |cmd| {
      Alike(e, cmd, i, if i == 2 || i == 4 then e.rssi else if i == 3 then e.snr else 0);
    }
  }

  /** GetPacketType answers LoRa. */
  lemma PacketType(r: Radio, cmd: seq<byte>, i: nat)
    requires Sized(r) && cmd != [] && cmd[0] == 0x11 && 2 <= i
    ensures BothAnswer(r, cmd, i, if i == 2 then 1 else 0)
  {
    hide StreamReply, StreamedReply;
    if i < |cmd| {
      Alike(r, cmd, i, if i == 2 then 1 else 0);
    }
  }

  /** Nothing but the reading commands answers more than the status byte. */
  lemma NothingElseAnswers(r: Radio, cmd: seq<byte>, i: nat)
    requires Sized(r) && cmd != [] && 2 <= i && cmd[0] !in {0x1E, 0x1D, 0x12, 0x13, 0x14, 0x15, 0x11}
    ensures BothAnswer(r, cmd, i, 0)
  {
    hide StreamReply, StreamedReply;
    if i < |cmd| {
      Alike(r, cmd, i, 0);
    }
  }

  // ---- the interrupt register ----

  /** The number these flags make. */
  function Weights(s: Bits): nat {
    (if 0 in s then 1 else 0) + (if 1 in s then 2 else 0) + (if 2 in s then 4 else 0) + (if 3 in s then 8 else 0)
    + (if 4 in s then 16 else 0) + (if 5 in s then 32 else 0) + (if 6 in s then 64 else 0) + (if 7 in s then 128 else 0)
    + 256 * ((if 8 in s then 1 else 0) + (if 9 in s then 2 else 0) + (if 10 in s then 4 else 0)
             + (if 11 in s then 8 else 0) + (if 12 in s then 16 else 0) + (if 13 in s then 32 else 0)
             + (if 14 in s then 64 else 0)
             + (if 15 in s then 128 else 0))
  }

  lemma HighAndLow(s: Bits)
    ensures 256 * (High(s) as nat) + Low(s) == Weights(s)
  {
    var n := NumberFrom(s, 0);
    Halves(n);
    UpperHalf(s);
    LowerHalf(s);
    hide NumberFrom;
  }

  lemma UpperHalf(s: Bits)
    ensures NumberFrom(s, 8) == (if 8 in s then 1 else 0) + (if 9 in s then 2 else 0) + (if 10 in s then 4 else 0)
                                + (if 11 in s then 8 else 0) + (if 12 in s then 16 else 0) + (if 13 in s then 32 else 0)
                                + (if 14 in s then 64 else 0) + (if 15 in s then 128 else 0)
  {
    assert NumberFrom(s, 16) == 0;
    hide NumberFrom;
    TwoBits(s, 14);
    TwoBits(s, 12);
    TwoBits(s, 10);
    TwoBits(s, 8);
  }

  lemma LowerHalf(s: Bits)
    ensures NumberFrom(s, 0) == (if 0 in s then 1 else 0) + (if 1 in s then 2 else 0) + (if 2 in s then 4 else 0)
                                + (if 3 in s then 8 else 0) + (if 4 in s then 16 else 0) + (if 5 in s then 32 else 0)
                                + (if 6 in s then 64 else 0) + (if 7 in s then 128 else 0) + 256 * NumberFrom(s, 8)
  {
    hide NumberFrom;
    TwoBits(s, 6);
    TwoBits(s, 4);
    TwoBits(s, 2);
    TwoBits(s, 0);
  }

  lemma TwoBits(s: Bits, i: nat)
    requires i <= 14
    ensures NumberFrom(s, i) == (if i in s then 1 else 0) + (if i + 1 in s then 2 else 0) + 4 * NumberFrom(s, i + 2)
  {
    assert NumberFrom(s, i) == (if i in s then 1 else 0) + 2 * NumberFrom(s, i + 1);
  }

  /** GetIrqStatus, five bytes or more, answers the register with the flags at the datasheet's weights, either way. */
  lemma IrqStatus(r: Radio, cmd: seq<byte>)
    requires Sized(r) && |cmd| >= 5 && cmd[0] == 0x12
    ensures BothAnswer(r, cmd, 2, High(r.irq)) && BothAnswer(r, cmd, 3, Low(r.irq))
    ensures 256 * (Reply(r, cmd)[2] as nat) + Reply(r, cmd)[3] == Weights(r.irq)
  {
    hide StreamReply, StreamedReply, High, Low, Weights;
    Alike(r, cmd, 2, High(r.irq));
    Alike(r, cmd, 3, Low(r.irq));
    HighAndLow(r.irq);
  }

  /** Bit b of a number. */
  predicate HasBit(n: nat, b: nat) {
    n / Pow2(b) % 2 == 1
  }

  /** The register two bytes stand for has bit b if and only if their number has. */
  lemma RegisterHas(hi: byte, lo: byte, b: nat)
    ensures b in Register(hi, lo) <==> b < 16 && HasBit(256 * (hi as nat) + lo, b)
  {
    hide Pow2;
    BitsHave(Word(hi, lo), 0, b);
  }

  lemma {:induction false} BitsHave(w: nat, i: nat, b: nat)
    requires i <= 16
    ensures b in BitsFrom(w, i) <==> i <= b < 16 && w / Pow2(b - i) % 2 == 1
    decreases 16 - i
  {
    if i < 16 && b > i {
      BitsHave(w / 2, i + 1, b);
      HalfThenPower(w, b - i);
    } else if i < 16 {
      assert b == i ==> Pow2(b - i) == 1 && w / 1 == w;
      assert b !in BitsFrom(w / 2, i + 1);
    }
  }

  lemma HalfThenPower(w: nat, n: nat)
    requires n > 0
    ensures w / 2 / Pow2(n - 1) == w / Pow2(n)
  {
    var p := Pow2(n - 1);
    assert Pow2(n) == 2 * p;
    hide Pow2;
    HalfThen(w, p);
  }

  lemma HalfThen(w: nat, p: nat)
    requires p > 0
    ensures w / 2 / p == w / (2 * p)
  {
    var h, q := w / 2, w / 2 / p;
    assert w == 2 * h + w % 2 && h == p * q + h % p;
    assert 2 * h == (2 * p) * q + 2 * (h % p);
    QuotientUnique(w, 2 * p, q);
  }

  // ---- the interrupt line ----

  /** The line is up if and only if a flag is up that the last SetDioIrqParams enabled; flags it did not enable do not
      raise it, and enabling a flag that is up raises it at once. */
  lemma LineIsMaskedFlags(r: Radio, ops: seq<Op>, k: nat)
    requires k < |ops| && ops[k].Command? && |ops[k].out| >= 9 && ops[k].out[0] == 0x08
    requires NotIssuedFrom(ops, k + 1, 0x08)
    ensures var mask := 256 * (ops[k].out[1] as nat) + ops[k].out[2];
            IrqAsserted(Run(r, ops)) <==> exists b :: b in Run(r, ops).irq && b < 16 && HasBit(mask, b)
  {
    hide Run, HasBit, Register, Holds, IrqAsserted, NotIssuedFrom;
    LastSettingHolds(r, ops, k);
    MaskHeld(Run(r, ops), ops[k].out);
    LineByMask(Run(r, ops), ops[k].out[1], ops[k].out[2]);
  }

  lemma LineByMask(r: Radio, hi: byte, lo: byte)
    requires r.irqMask == Register(hi, lo)
    ensures IrqAsserted(r) <==> exists b :: b in r.irq && b < 16 && HasBit(256 * (hi as nat) + lo, b)
  {
    hide HasBit, Register;
    forall b: nat ensures b in r.irqMask <==> b < 16 && HasBit(256 * (hi as nat) + lo, b) {
      RegisterHas(hi, lo, b);
    }
    if IrqAsserted(r) {
      var b :| b in r.irq * r.irqMask;
      assert b in r.irq && b in r.irqMask;
    }
    if b :| b in r.irq && b < 16 && HasBit(256 * (hi as nat) + lo, b) {
      assert b in r.irq * r.irqMask;
    }
  }

  lemma MaskHeld(e: Radio, out: seq<byte>)
    requires |out| >= 9 && out[0] == 0x08 && Holds(e, out)
    ensures e.irqMask == Register(out[1], out[2])
  {
    hide Register, Word, Signed, PllToHz;
  }

  /** A new chip enables none, so until then nothing raises the line. */
  lemma LineDownUntilEnabled(stuckMs: nat, ops: seq<Op>)
    requires NotIssuedFrom(ops, 0, 0x08)
    ensures !IrqAsserted(Run(PowerUp(stuckMs), ops))
  {
    RunKeepsSetting(PowerUp(stuckMs), ops, 0x08);
    assert PowerUp(stuckMs).irqMask == {};
    hide Run, PowerUp;
  }

  /** And the emulator is told so: one for up, zero for down, and never busy. */
  lemma PinsTold(s: Server.Server)
    ensures Server.ToEmulator(s, Server.ReadIrq) == [if IrqAsserted(s.chip.radio) then 1 else 0]
    ensures Server.ToEmulator(s, Server.ReadBusy) == [0]
    ensures forall level: byte {:trigger Server.SetFem(level)} ::
              Server.Serve(s, Server.SetFem(level)).chip.radio.fem.enabled <==> level != 0
  {
    hide IrqAsserted;
  }

  // ---- the record ----

  /** The record of a new chip, byte for byte: no counts, power-saving gain, no power set, front end out, standby, SF10,
      4/5, 869.525 MHz, 250 kHz, 16 symbols of preamble, nothing enabled and nothing up. */
  lemma NewRecord(stuckMs: nat)
    ensures Body(PowerUpChip(stuckMs))
              == [0, 0, 0, 0, 0, 0, 0, 0, 0, 0, 0, 0, 0, 0, 0, 0,
                  0x94, 0x80, 0, 0, 10, 5, 0x33, 0xD3, 0xE6, 0x08, 0, 0x03, 0xD0, 0x90, 0, 16, 0, 0, 0, 0]
  {
    assert ByteAt(PowerUp(stuckMs).regs, 0x08AC) == 0x94;
    Untouched(PowerUpChip(stuckMs));
    hide PowerUp, Body;
  }

  lemma Untouched(c: Chip)
    requires ByteAt(c.radio.regs, 0x08AC) == 0x94 && c.radio.irq == c.radio.irqMask == {} && c.radio.mode == Standby
    requires c.radio.modem == Modem(10, 250000, 5, 16, 869525000, -128) && !c.radio.fem.enabled
    requires c.radio.busyMs == 0 && c.radio.fault.raises == 0 && c.irqReads == 0 && c.busyReads == 0
    ensures Body(c) == [0, 0, 0, 0, 0, 0, 0, 0, 0, 0, 0, 0, 0, 0, 0, 0,
                        0x94, 0x80, 0, 0, 10, 5, 0x33, 0xD3, 0xE6, 0x08, 0, 0x03, 0xD0, 0x90, 0, 16, 0, 0, 0, 0]
  {
    RecordParts();
    hide Put32, Put16, TwosComplement, High, Low, ByteAt;
  }

  lemma RecordParts()
    ensures Put32(0) == [0, 0, 0, 0]
    ensures Put32(869525000) == [0x33, 0xD3, 0xE6, 0x08] && Put32(250000) == [0, 0x03, 0xD0, 0x90]
    ensures Put16(16) == [0, 16] && TwosComplement(-128) == 0x80 && High({}) == 0 && Low({}) == 0
  {
    HighAndLow({});
    hide High, Low;
  }

  /** A new chip names its part "SX1261" in the six registers at 0x0320, and the first answers after power-up are those
      of a chip that has heard nothing. */
  lemma NewChip(stuckMs: nat)
    ensures PowerUp(stuckMs).regs[0x0320..0x0326] == [0x53, 0x58, 0x31, 0x32, 0x36, 0x31]
    ensures PowerUp(stuckMs).rssi == 200 && PowerUp(stuckMs).snr == 0
  {
    var regs := PowerUp(stuckMs).regs;
    assert forall k :: 0x0320 <= k < 0x0326 ==> regs[k] == VERSION[k - 0x0320];
  }

  /** The last byte of the server's record: zero until the first SetTx, and then two or one for the front end's line
      having been up or down at the last SetTx, whatever it has done since. */
  lemma FrontEndRecorded(stuckMs: nat, ops: seq<Op>)
    ensures var e := Run(PowerUp(stuckMs), ops);
            && (FemState(e.fem) == 0 <==> forall k :: 0 <= k < |ops| ==> !History.Issues(ops[k], {0x83}))
            && forall k :: 0 <= k < |ops| && History.Issues(ops[k], {0x83})
                           && (forall j :: k < j < |ops| ==> !History.Issues(ops[j], {0x83})) ==>
                 FemState(e.fem) == if Run(PowerUp(stuckMs), ops[..k]).fem.enabled then 2 else 1
  {
    assert !PowerUp(stuckMs).fem.hasTransmitted;
    hide Run, PowerUp, History.Issues;
    History.NotYetTransmitted(PowerUp(stuckMs), ops);
    forall k | 0 <= k < |ops| && History.Issues(ops[k], {0x83})
               && (forall j :: k < j < |ops| ==> !History.Issues(ops[j], {0x83}))
      ensures FemState(Run(PowerUp(stuckMs), ops).fem) == if Run(PowerUp(stuckMs), ops[..k]).fem.enabled then 2 else 1
    {
      History.LineAtLastTransmit(PowerUp(stuckMs), ops, k);
    }
  }

  /** What either program reports at the end of a tick is about the chip as it then stands, 37 bytes, and the last of
      them answers for the front end in the server and never in the bridge. */
  lemma ReportedAtTick(s: Server.Server, n: Bridge.Node, p: seq<byte>, fw: Bridge.Firmware)
    requires |p| == 4
    ensures var e := Server.Engine(s, Message(0x02, p));
            && |e.toEngine| >= 2
            && e.toEngine[|e.toEngine| - 2].payload
                 == Body(e.chip)
                    + [if !e.chip.radio.fem.hasTransmitted then 0 else if e.chip.radio.fem.atTx then 2 else 1]
    ensures var e := Bridge.NodeOf(Bridge.Receive(n, Message(0x02, p), fw));
            |e.toEngine| >= 2 && e.toEngine[|e.toEngine| - 2].payload == Body(e.hal.chip) + [0]
  {
    var frames := Server.TickShape(s, p);
    var sent, printed := Bridge.TickShape(n, p, fw);
    hide Server.Engine, Bridge.Ticked, Body, Server.TickTarget;
  }

  // ---- the numbers ----

  /** Bandwidth codes in hertz, and no others. */
  lemma BandwidthTable(code: byte, current: nat)
    ensures BandwidthHz(code, current) ==
              if code == 0x00 then 7810 else if code == 0x08 then 10420 else if code == 0x01 then 15630
              else if code == 0x09 then 20830 else if code == 0x02 then 31250 else if code == 0x0A then 41670
              else if code == 0x03 then 62500 else if code == 0x04 then 125000 else if code == 0x05 then 250000
              else if code == 0x06 then 500000 else current
    ensures Bandwidth(Modem(10, 0, 5, 16, 0, 0)) == 250000
  {
  }

  /** A SetModulationParams with an unmapped bandwidth code keeps the bandwidth, and one with no coding rate the
      rate. */
  lemma KeptByModulation(r: Radio, out: seq<byte>)
    requires |out| >= 4 && out[0] == 0x8B
    ensures out[2] == 7 || out[2] > 0x0A ==> Exec(r, out).modem.bwHz == r.modem.bwHz
    ensures out[3] == 0 ==> Exec(r, out).modem.cr == r.modem.cr
  {
    hide WriteAt, Outgoing;
  }

  /** A command too short for its parameters does nothing at all. */
  lemma TooShort(r: Radio, out: seq<byte>)
    requires out != []
    requires var op, n := out[0], |out|;
             || (op == 0x86 && n < 5) || (op == 0x8E && n < 2) || (op == 0x8B && n < 4) || (op == 0x8C && n < 7)
             || (op == 0x8F && n < 3) || (op == 0x0E && n < 2) || (op == 0x0D && n < 3) || (op == 0x08 && n < 9)
             || (op == 0x02 && n < 3)
    ensures Exec(r, out) == r
  {
    hide Apply;
    assert Decode(out) == NoAction;
    assert Apply(r, NoAction) == r by {
      NoActionIsNothing(r);
    }
  }

  lemma NoActionIsNothing(r: Radio)
    ensures Apply(r, NoAction) == r
  {
  }

  /** ClearIrqStatus of three bytes or more takes down exactly the flags its two bytes name. */
  lemma Clears(r: Radio, out: seq<byte>, b: nat)
    requires |out| >= 3 && out[0] == 0x02
    ensures b in Exec(r, out).irq <==> b in r.irq && !(b < 16 && HasBit(256 * (out[1] as nat) + out[2], b))
  {
    RegisterHas(out[1], out[2], b);
    assert Decode(out) == ClearIrq(Register(out[1], out[2]));
    hide Register, Decode, HasBit;
  }

  /** Opcodes, flags and kinds of message as the datasheet and the wire have them. */
  lemma Numbers()
    ensures SET_SLEEP == 0x84 && SET_STANDBY == 0x80 && SET_TX == 0x83 && SET_RX == 0x82 && SET_CAD == 0xC5
    ensures SET_RF_FREQUENCY == 0x86 && SET_TX_PARAMS == 0x8E && SET_MODULATION_PARAMS == 0x8B
    ensures SET_PACKET_PARAMS == 0x8C && CALIBRATE == 0x89 && SET_BUFFER_BASE == 0x8F && SET_DIO_IRQ_PARAMS == 0x08
    ensures WRITE_BUFFER == 0x0E && READ_BUFFER == 0x1E && WRITE_REGISTER == 0x0D && READ_REGISTER == 0x1D
    ensures GET_IRQ_STATUS == 0x12 && CLEAR_IRQ_STATUS == 0x02 && GET_RX_BUFFER_STATUS == 0x13
    ensures GET_PACKET_STATUS == 0x14 && GET_STATUS == 0xC0 && GET_DEVICE_ERRORS == 0x17 && GET_RSSI_INST == 0x15
    ensures GET_PACKET_TYPE == 0x11 && REG_VERSION == 0x0320 && REG_RX_GAIN == 0x08AC
    ensures TX_DONE == 0 && RX_DONE == 1 && PREAMBLE == 2 && SYNC_WORD == 3 && HEADER == 4
    ensures CAD_DONE == 7 && CAD_DETECTED == 8 && PREAMBLE_SYMBOLS == 4 && HEADER_SYMBOLS == 12
    ensures Server.FRAME == 1 && Server.TICK == 2 && Server.ACK == 3 && Server.TX_DONE_MSG == 4 && Bridge.ORIGINATE == 5
    ensures Server.CONSOLE_IN == 6 && Bridge.CONSOLE_OUT == 7 && Server.CHANNEL_BUSY == 8 && Server.RADIO_STATS == 9
  {
  }
}
