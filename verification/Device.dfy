/**
 * The virtual chip as the object it is in the source: fields updated in place, two memories,
 * copy loops, and the two clocking paths over one command decoder. Every method is proved
 * to do to the object what Radio and Clocking say about its abstract state.
 */
module Device {
  import opened Bytes
  import opened Radio
  import opened Clocking

  /** Copy bytes into a memory, stopping at its end. */
  method Store(mem: array<byte>, off: nat, data: seq<byte>)
    modifies mem
    ensures mem[..] == WriteAt(old(mem[..]), off, data)
  {
    var i := 0;
    while i < |data| && off + i < mem.Length
      invariant i <= |data|
      invariant forall k :: 0 <= k < mem.Length ==>
                  mem[k] == if off <= k < off + i then data[k - off] else old(mem[k])
    {
      mem[off + i] := data[i];
      i := i + 1;
    }
  }

  /** Copy a memory from off on into a reply buffer from position `from` on, zero past the memory's end. */
  method Load(mem: array<byte>, off: nat, reply: array<byte>, from: nat, len: nat)
    requires from <= len <= reply.Length && mem != reply
    modifies reply
    ensures forall k :: 0 <= k < reply.Length ==>
              reply[k] == if from <= k < len then ByteAt(mem[..], off + (k - from)) else old(reply[k])
  {
    for i := from to len
      invariant forall k :: 0 <= k < reply.Length ==>
                  reply[k] == if from <= k < i then ByteAt(mem[..], off + (k - from)) else old(reply[k])
    {
      var idx := off + (i - from);
      reply[i] := if idx < mem.Length then mem[idx] else 0;
    }
  }

  /** Fields that the source declares side by side and that change together are one record-valued
      field here: the modem settings, the front end, the detector, the fault, the outbox, the transaction. */
  class VirtualSX1262 {
    // ---- the simulator's side ----
    var outbox: Outbox
    var inbox: seq<seq<byte>>

    // ---- chip state ----
    const buffer: array<byte>
    const regs: array<byte>
    var rxLen: byte
    var irq: Bits
    var irqMask: Bits
    var mode: Mode
    var txBase: byte
    var rxBase: byte
    var txLenForSend: byte
    var modem: Modem
    var fem: FrontEnd
    var air: Air
    var link: Link
    var rssi: byte
    var snr: byte
    var nowMs: nat

    // ---- instrumentation and fault ----
    var irqReads: nat
    var busyReads: nat
    var busyMs: nat
    var preambleRaises: nat
    var lastBusyTickMs: nat
    var fault: Fault

    ghost predicate Valid()
      reads this
    {
      buffer.Length == BUFFER_SIZE && regs.Length == REGISTERS && buffer != regs
    }

    ghost function RadioState(): Radio
      reads this, buffer, regs
    {
      Radio(buffer[..], regs[..], rxLen, irq, irqMask, mode, txBase, rxBase, txLenForSend, modem, fem, air,
            rssi, snr, nowMs, busyMs, preambleRaises, lastBusyTickMs, fault, outbox, inbox)
    }

    ghost function State(): Chip
      reads this, buffer, regs
    {
      Chip(RadioState(), irqReads, busyReads, link)
    }

    constructor (stuckMs: nat)
      ensures Valid() && fresh(buffer) && fresh(regs)
      ensures State() == PowerUpChip(stuckMs)
    {
      outbox, inbox := Outbox(false, []), [];
      buffer := new byte[BUFFER_SIZE](_ => 0);
      regs := new byte[REGISTERS](_ => 0);
      rxLen, irq, irqMask, mode, txBase, rxBase, txLenForSend := 0, {}, {}, Standby, 0, 0, 0;
      modem := Modem(10, 250000, 5, 16, 869525000, -128);
      fem, air, link := FrontEnd(false, false, false), Air(false, 0, false, false), IDLE;
      rssi, snr, nowMs := 200, 0, 0;
      irqReads, busyReads, busyMs, preambleRaises, lastBusyTickMs := 0, 0, 0, 0, 0;
      fault := Fault(stuckMs, 0, 0);
      new;
      assert buffer[..] == seq(BUFFER_SIZE, _ => 0) && regs[..] == seq(REGISTERS, _ => 0);
      Store(regs, REG_VERSION, VERSION);
      regs[REG_RX_GAIN] := RX_GAIN_POWER_SAVING;
      assert regs[..] == PowerUp(stuckMs).regs;
    }

    predicate IrqAsserted()
      reads this
    {
      irq * irqMask != {}
    }

    // ---- time ----

    method Tick(at: nat)
      requires Valid()
      modifies this`busyMs, this`lastBusyTickMs, this`nowMs, this`irq, this`fault,
               this`rxLen, this`inbox, this`air, this`preambleRaises, buffer
      ensures RadioState() == TickTo(old(RadioState()), at)
    {
      hide Accrue, Misfire, Deliver, DetectPreamble, DetectHeader;
      AccrueBusy(at);
      MisfireIfDue();
      if mode == Rx {
        DeliverPending();
      }
      // Preamble and header detection, in receive mode only.
      if mode != Rx {
        return;
      }
      RaisePreamble();
      RaiseHeader();
    }

    method AccrueBusy(at: nat)
      requires Valid()
      modifies this`busyMs, this`lastBusyTickMs, this`nowMs
      ensures RadioState() == Accrue(old(RadioState()), at)
    {
      if (PREAMBLE in irq || HEADER in irq) && at > lastBusyTickMs {
        busyMs := busyMs + (at - lastBusyTickMs);
      }
      lastBusyTickMs := at;
      nowMs := at;
    }

    method MisfireIfDue()
      requires Valid()
      modifies this`irq, this`fault
      ensures RadioState() == Misfire(old(RadioState()))
    {
      if fault.stuckMs > 0 && mode == Rx && nowMs >= fault.nextSpurious {
        irq := irq + {PREAMBLE};
        fault := fault.(raises := fault.raises + 1, nextSpurious := nowMs + fault.stuckMs);
      }
    }

    method DeliverPending()
      requires Valid()
      modifies this`rxLen, this`irq, this`inbox, buffer
      ensures RadioState() == Deliver(old(RadioState()))
    {
      if inbox == [] {
        return;
      }
      var f := inbox[0];
      rxLen := if |f| > 255 then 255 else |f|;
      Store(buffer, rxBase, f[..rxLen]);
      inbox := inbox[1..];
      irq := irq + {RX_DONE} + {PREAMBLE, HEADER, SYNC_WORD};
      assert irq == old(irq) + {RX_DONE, PREAMBLE, HEADER, SYNC_WORD};
    }

    method RaisePreamble()
      requires Valid()
      modifies this`irq, this`air, this`preambleRaises
      ensures RadioState() == DetectPreamble(old(RadioState()))
    {
      var heard := SinceBusy(air.since, nowMs) * (if modem.bwHz > 0 then modem.bwHz else 250000)
                   >= PREAMBLE_SYMBOLS * 1000 * Pow2(modem.sf);
      assert heard == Heard(RadioState(), nowMs, PREAMBLE_SYMBOLS);
      hide Heard;
      if air.busy && !air.preambleRaised && heard {
        irq := irq + {PREAMBLE};
        air := air.(preambleRaised := true);
        preambleRaises := preambleRaises + 1;
      }
    }

    method RaiseHeader()
      requires Valid()
      modifies this`irq, this`air
      ensures RadioState() == DetectHeader(old(RadioState()))
    {
      var heard := SinceBusy(air.since, nowMs) * (if modem.bwHz > 0 then modem.bwHz else 250000)
                   >= HEADER_SYMBOLS * 1000 * Pow2(modem.sf);
      assert heard == Heard(RadioState(), nowMs, HEADER_SYMBOLS);
      hide Heard;
      if air.busy && !air.headerRaised && heard {
        irq := irq + {HEADER, SYNC_WORD};
        air := air.(headerRaised := true);
      }
    }

    // ---- what the simulator reports ----

    method SetChannelBusy(busy: bool)
      requires Valid()
      modifies this`air
      ensures RadioState() == BusyChanged(old(RadioState()), busy)
    {
      if busy && !air.busy {
        air := air.(since := nowMs);
      }
      if !busy {
        air := air.(preambleRaised := false, headerRaised := false);
      }
      air := air.(busy := busy);
    }

    method TransmitFinished()
      requires Valid()
      modifies this`irq, this`mode
      ensures RadioState() == FinishTransmit(old(RadioState()))
    {
      if mode == Tx {
        irq := irq + {TX_DONE};
        mode := Standby;
      }
    }

    method PushFrame(frame: seq<byte>)
      requires Valid()
      modifies this`inbox
      ensures RadioState() == old(RadioState()).(inbox := old(inbox) + [frame])
    {
      inbox := inbox + [frame];
    }

    method SetFemEnabled(on: bool)
      requires Valid()
      modifies this`fem
      ensures RadioState() == Step(old(RadioState()), Fem(on))
    {
      fem := fem.(enabled := on);
    }

    /** Take the frame waiting to go out, if there is one. */
    method TakePending() returns (waiting: bool, frame: seq<byte>)
      requires Valid()
      modifies this`outbox
      ensures waiting == old(outbox.waiting) && frame == old(outbox.frame)
      ensures RadioState() == Step(old(RadioState()), Drain)
    {
      waiting, frame := outbox.waiting, outbox.frame;
      if waiting {
        outbox := outbox.(waiting := false);
      }
    }

    // ---- the command decoder ----

    /** The decoder both clocking paths share: act on the command, and fill the reply, which comes in zeroed. */
    method RunCommand(out: seq<byte>, reply: array<byte>)
      requires Valid() && out != [] && reply.Length >= |out| && reply != buffer && reply != regs
      requires forall k :: 0 <= k < |out| ==> reply[k] == 0
      modifies this, buffer, regs, reply
      ensures State() == Clocking.RunCommand(old(State()), out) && Valid()
      ensures forall k :: 0 <= k < reply.Length ==>
                reply[k] == if k < |out| then ReplyAt(old(RadioState()), out, k) else old(reply[k])
    {
      assert RadioState().irq == irq;
      hide Exec, ReplyAt, RadioState;
      if |out| > 1 {
        reply[1] := STATUS_BYTE;
      }
      AnswerGetter(out, reply);
      Act(out);
    }

    /** The getters of the switch. */
    method AnswerGetter(out: seq<byte>, reply: array<byte>)
      requires Valid() && out != [] && reply.Length >= |out| && reply != buffer && reply != regs
      requires forall k :: 0 <= k < |out| ==> reply[k] == if k == 1 then STATUS_BYTE else 0
      modifies this`irqReads, this`busyReads, reply
      ensures RadioState() == old(RadioState())
      ensures var polls := if out[0] == GET_IRQ_STATUS then 1 else 0;
              irqReads == old(irqReads) + polls && busyReads == old(busyReads) + if ShowsBusy(irq) then polls else 0
      ensures forall k :: 0 <= k < reply.Length ==>
                reply[k] == if k < |out| then ReplyAt(RadioState(), out, k) else old(reply[k])
    {
      var op, len := out[0], |out|;
      if op == READ_BUFFER {
        if len >= 3 {
          Load(buffer, out[1], reply, 3, len);
        }
      } else if op == READ_REGISTER {
        if len >= 4 {
          Load(regs, Word(out[1], out[2]), reply, 4, len);
        }
      } else if op == GET_IRQ_STATUS {
        irqReads := irqReads + 1;
        if ShowsBusy(irq) {
          busyReads := busyReads + 1;
        }
        if len >= 4 {
          reply[2] := High(irq);
        }
        if len >= 5 {
          reply[3] := Low(irq);
        }
      } else if op == GET_RX_BUFFER_STATUS {
        if len >= 4 {
          reply[2] := rxLen;
        }
        if len >= 5 {
          reply[3] := rxBase;
        }
      } else if op == GET_PACKET_STATUS {
        if len >= 3 {
          reply[2] := rssi;
        }
        if len >= 4 {
          reply[3] := snr;
        }
        if len >= 5 {
          reply[4] := rssi;
        }
      } else if op == GET_RSSI_INST {
        if len >= 3 {
          reply[2] := rssi;
        }
      } else if op == GET_PACKET_TYPE {
        if len >= 3 {
          reply[2] := 1;
        }
      }
    }

    method EnterModeNow(m: Mode)
      requires Valid()
      modifies this`mode
      ensures RadioState() == Apply(old(RadioState()), EnterMode(m))
    {
      mode := m;
    }

    method StartTxNow()
      requires Valid()
      modifies this`mode, this`fem, this`outbox
      ensures RadioState() == Apply(old(RadioState()), StartTransmit)
    {
      mode := Tx;
      fem := FrontEnd(fem.enabled, fem.enabled, true);
      outbox := Outbox(true, buffer[Min(txBase, buffer.Length)..Min(txBase + txLenForSend, buffer.Length)]);
      assert outbox.frame == Slice(buffer[..], txBase, txLenForSend);
    }

    method StartCadNow()
      requires Valid()
      modifies this`mode, this`irq
      ensures RadioState() == Apply(old(RadioState()), StartScan)
    {
      mode := Cad;
      irq := irq + {CAD_DONE};
      if air.busy {
        irq := irq + {CAD_DETECTED};
      }
      mode := Standby;
      assert irq == old(irq) + if air.busy then {CAD_DONE, CAD_DETECTED} else {CAD_DONE};
    }

    method SetFrequency(hz: nat)
      requires Valid()
      modifies this`modem
      ensures RadioState() == Apply(old(RadioState()), Frequency(hz))
    {
      modem := modem.(freqHz := hz);
    }

    method SetPower(dbm: int)
      requires Valid()
      modifies this`modem
      ensures RadioState() == Apply(old(RadioState()), Power(dbm))
    {
      modem := modem.(txPowerDbm := dbm);
    }

    method ApplyModulation(sf: byte, code: byte, cr: byte)
      requires Valid()
      modifies this`modem
      ensures RadioState() == Apply(old(RadioState()), Modulation(sf, code, cr))
    {
      modem := modem.(sf := sf);
      modem := modem.(bwHz := BandwidthHz(code, modem.bwHz));
      modem := modem.(cr := if cr != 0 then 4 + cr else modem.cr);
    }

    method ApplyPacketParams(preamble: nat, len: byte)
      requires Valid()
      modifies this`modem, this`txLenForSend
      ensures RadioState() == Apply(old(RadioState()), PacketParams(preamble, len))
    {
      modem := modem.(preambleSyms := preamble);
      txLenForSend := len;
    }

    method SetBase(tx: byte, rx: byte)
      requires Valid()
      modifies this`txBase, this`rxBase
      ensures RadioState() == Apply(old(RadioState()), BufferBase(tx, rx))
    {
      txBase, rxBase := tx, rx;
    }

    method StoreInBuffer(off: nat, data: seq<byte>)
      requires Valid()
      modifies buffer
      ensures RadioState() == Apply(old(RadioState()), StoreBuffer(off, data))
    {
      Store(buffer, off, data);
    }

    method StoreRegisters(addr: nat, data: seq<byte>)
      requires Valid()
      modifies regs
      ensures RadioState() == Apply(old(RadioState()), StoreRegs(addr, data))
    {
      Store(regs, addr, data);
    }

    method SetIrqMask(mask: Bits)
      requires Valid()
      modifies this`irqMask
      ensures RadioState() == Apply(old(RadioState()), IrqParams(mask))
    {
      irqMask := mask;
    }

    method ClearIrqBits(clear: Bits)
      requires Valid()
      modifies this`irq, this`air
      ensures RadioState() == Apply(old(RadioState()), ClearIrq(clear))
    {
      irq := irq - clear;
      if PREAMBLE in clear {
        air := air.(preambleRaised := false);
      }
      if HEADER in clear {
        air := air.(headerRaised := false);
      }
    }

    /** The commands of the switch that change the chip. */
    method Act(out: seq<byte>)
      requires Valid() && out != []
      modifies this`mode, this`irq, this`irqMask, this`fem, this`outbox, this`air, this`modem,
               this`txBase, this`rxBase, this`txLenForSend, buffer, regs
      ensures RadioState() == Exec(old(RadioState()), out)
    {
      assert Apply(RadioState(), NoAction) == RadioState();
      hide Apply;
      var op, len := out[0], |out|;
      if op == SET_STANDBY || op == SET_SLEEP {
        EnterModeNow(Standby);
      } else if op == SET_RX {
        EnterModeNow(Rx);
      } else if op == SET_TX {
        StartTxNow();
      } else if op == SET_CAD {
        StartCadNow();
      } else if op == SET_RF_FREQUENCY {
        if len >= 5 {
          SetFrequency(PllToHz(0x1_0000 * Word(out[1], out[2]) + Word(out[3], out[4])));
        }
      } else if op == SET_TX_PARAMS {
        if len >= 2 {
          SetPower(Signed(out[1]));
        }
      } else if op == CALIBRATE {
        StoreRegisters(REG_RX_GAIN, [RX_GAIN_POWER_SAVING]);
      } else if op == SET_MODULATION_PARAMS {
        if len >= 4 {
          ApplyModulation(out[1], out[2], out[3]);
        }
      } else if op == SET_PACKET_PARAMS {
        if len >= 7 {
          ApplyPacketParams(Word(out[1], out[2]), out[4]);
        }
      } else if op == SET_BUFFER_BASE {
        if len >= 3 {
          SetBase(out[1], out[2]);
        }
      } else if op == WRITE_BUFFER {
        if len >= 2 {
          StoreInBuffer(out[1], out[2..]);
        }
      } else if op == WRITE_REGISTER {
        if len >= 3 {
          StoreRegisters(Word(out[1], out[2]), out[3..]);
        }
      } else if op == SET_DIO_IRQ_PARAMS {
        if len >= 9 {
          SetIrqMask(Register(out[1], out[2]));
        }
      } else if op == CLEAR_IRQ_STATUS {
        if len >= 3 {
          ClearIrqBits(Register(out[1], out[2]));
        }
      }
    }

    // ---- clocking a whole buffer, and a byte at a time ----

    method SpiTransfer(out: seq<byte>, reply: array<byte>)
      requires Valid() && reply.Length == |out| && reply != buffer && reply != regs
      modifies this, buffer, regs, reply
      ensures Valid() && State() == StepChip(old(State()), Direct(Command(out)))
      ensures reply[..] == Answer(old(State()), Direct(Command(out)))
    {
      hide Exec, ReplyAt;
      if |out| == 0 {
        return;
      }
      forall k | 0 <= k < reply.Length {
        reply[k] := 0;
      }
      RunCommand(out, reply);
    }

    method BeginTransaction()
      requires Valid()
      modifies this`link
      ensures State() == SelectChip(old(State()))
    {
      link := Link([], true);
    }

    method TransferByte(out: byte) returns (answer: byte)
      requires Valid()
      modifies this, buffer, regs
      ensures Valid() && State() == ClockByte(old(State()), out)
      ensures [answer] == Answer(old(State()), Clock(out))
    {
      hide Exec, ReplyAt;
      if !link.open {
        BeginTransaction();
      }
      link := link.(txn := link.txn + [out]);
      var txn := link.txn;
      assert link == Extended(old(link), out);

      var i := |txn| - 1;
      if ReturnsData(txn[0]) {
        // Evaluated against a padded command, so that the length guards of the getters let it answer.
        var scratch := new byte[SCRATCH](_ => 0);
        var have := if |txn| < SCRATCH then |txn| else SCRATCH;
        var n := if have > PADDED_MIN then have else PADDED_MIN;
        var padded := seq(n, k requires 0 <= k => if k < have then txn[k] else 0);
        assert padded == Padded(txn);
        RunCommand(padded, scratch);
        answer := if i < SCRATCH then scratch[i] else 0;
      } else {
        answer := if i == 1 then STATUS_BYTE else 0;
      }
    }

    method EndTransaction()
      requires Valid()
      modifies this, buffer, regs
      ensures Valid() && State() == ReleaseChip(old(State()))
    {
      hide Exec, ReplyAt;
      var txn := link.txn;
      link := Link(txn, false);
      if txn == [] {
        return;
      }
      if ReturnsData(txn[0]) {
        link := Link([], false);
        return;
      }
      var scratch := new byte[SCRATCH](_ => 0);
      var n := if |txn| < SCRATCH then |txn| else SCRATCH;
      RunCommand(txn[..n], scratch);
      link := Link([], false);
    }
  }
}
