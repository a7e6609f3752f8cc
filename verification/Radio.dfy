/**
 * The virtual SX1262 as a state machine on values: everything the chip holds apart from
 * the SPI transaction in flight and the two counters of IRQ register reads, which
 * Clocking adds. One operation per call the simulator or the SPI decoder can make.
 */
module Radio {
  import opened Bytes

  const SET_STANDBY: byte := 0x80
  const SET_RX: byte := 0x82
  const SET_TX: byte := 0x83
  const SET_SLEEP: byte := 0x84
  const SET_CAD: byte := 0xC5
  const SET_RF_FREQUENCY: byte := 0x86
  const GET_PACKET_TYPE: byte := 0x11
  const SET_TX_PARAMS: byte := 0x8E
  const SET_MODULATION_PARAMS: byte := 0x8B
  const SET_PACKET_PARAMS: byte := 0x8C
  const CALIBRATE: byte := 0x89
  const SET_BUFFER_BASE: byte := 0x8F
  const WRITE_BUFFER: byte := 0x0E
  const READ_BUFFER: byte := 0x1E
  const WRITE_REGISTER: byte := 0x0D
  const READ_REGISTER: byte := 0x1D
  const SET_DIO_IRQ_PARAMS: byte := 0x08
  const GET_IRQ_STATUS: byte := 0x12
  const CLEAR_IRQ_STATUS: byte := 0x02
  const GET_RX_BUFFER_STATUS: byte := 0x13
  const GET_PACKET_STATUS: byte := 0x14
  const GET_STATUS: byte := 0xC0
  const GET_DEVICE_ERRORS: byte := 0x17
  const GET_RSSI_INST: byte := 0x15

  // Bits of the interrupt register.
  const TX_DONE: nat := 0
  const RX_DONE: nat := 1
  const PREAMBLE: nat := 2
  const SYNC_WORD: nat := 3
  const HEADER: nat := 4
  const CAD_DONE: nat := 7
  const CAD_DETECTED: nat := 8

  /** A listen-before-talk driver reads these flags as a busy channel. */
  predicate ShowsBusy(irq: Bits) {
    PREAMBLE in irq || HEADER in irq
  }

  const PREAMBLE_SYMBOLS: nat := 4
  const HEADER_SYMBOLS: nat := 12
  const BUFFER_SIZE: nat := 256
  const REGISTERS: nat := 0x1000
  const REG_VERSION: nat := 0x0320
  const REG_RX_GAIN: nat := 0x08AC
  const RX_GAIN_POWER_SAVING: byte := 0x94
  const STATUS_BYTE: byte := 0x22
  const TWO_64: nat := 0x1_0000_0000_0000_0000

  /** "SX1261": the version string of the part. */
  const VERSION: seq<byte> := [0x53, 0x58, 0x31, 0x32, 0x36, 0x31]

  datatype Mode = Standby | Rx | Tx | Cad

  /** Modem settings. Bandwidth is in hertz, so that the fractional kilohertz of the
      datasheet's table are exact. */
  datatype Modem = Modem(sf: nat, bwHz: nat, cr: nat, preambleSyms: nat, freqHz: nat, txPowerDbm: int)

  /** The front-end module: its enable line, and what the line was at the last transmission. */
  datatype FrontEnd = FrontEnd(enabled: bool, atTx: bool, hasTransmitted: bool)

  /** What the air is doing here, and how far into it the detector has got. */
  datatype Air = Air(busy: bool, since: nat, preambleRaised: bool, headerRaised: bool)

  /** Fault injection. A period of 0 is a chip that behaves. */
  datatype Fault = Fault(stuckMs: nat, nextSpurious: nat, raises: nat)

  datatype Outbox = Outbox(waiting: bool, frame: seq<byte>)

  datatype Radio = Radio(
    buffer: seq<byte>, regs: seq<byte>,
    rxLen: byte, irq: Bits, irqMask: Bits, mode: Mode,
    txBase: byte, rxBase: byte, txLen: byte,
    modem: Modem, fem: FrontEnd, air: Air, rssi: byte, snr: byte,
    now: nat, busyMs: nat, preambleRaises: nat, lastBusyTick: nat, fault: Fault,
    outbox: Outbox, inbox: seq<seq<byte>>)

  /** What one command asks of the chip, once its length guards have been applied. */
  datatype Action =
    | EnterMode(mode: Mode)
    | StartTransmit
    | StartScan
    | Frequency(hz: nat)
    | Power(dbm: int)
    | ResetGain
    | Modulation(sf: byte, bwCode: byte, crCode: byte)
    | PacketParams(preamble: nat, len: byte)
    | BufferBase(tx: byte, rx: byte)
    | StoreBuffer(off: nat, data: seq<byte>)
    | StoreRegs(addr: nat, data: seq<byte>)
    | IrqParams(mask: Bits)
    | ClearIrq(mask: Bits)
    | NoAction

  datatype Op =
    | Tick(at: nat)
    | ChannelBusy(busy: bool)
    | TransmitFinished
    | PushFrame(frame: seq<byte>)
    | LastSignal(rssi: byte, snr: byte)
    | Fem(on: bool)
    | StuckIrq(ms: nat)
    | Drain
    | Command(out: seq<byte>)

  /** The state after construction, with the fault compiled in or not. */
  function PowerUp(stuckMs: nat): Radio {
    Radio(
      seq(BUFFER_SIZE, _ => 0),
      WriteAt(WriteAt(seq(REGISTERS, _ => 0), REG_VERSION, VERSION), REG_RX_GAIN, [RX_GAIN_POWER_SAVING]),
      0, {}, {}, Standby, 0, 0, 0,
      Modem(10, 250000, 5, 16, 869525000, -128), FrontEnd(false, false, false), Air(false, 0, false, false), 200, 0,
      0, 0, 0, 0, Fault(stuckMs, 0, 0),
      Outbox(false, []), [])
  }

  // ---- the simulator's side ----

  /** Account for time spent with a busy flag up, and move the clock. */
  function Accrue(r: Radio, at: nat): Radio {
    r.(busyMs := if ShowsBusy(r.irq) && at > r.lastBusyTick then r.busyMs + (at - r.lastBusyTick) else r.busyMs,
       lastBusyTick := at,
       now := at)
  }

  /** The injected fault: a detection interrupt with nothing on the air. */
  predicate SpuriousDue(r: Radio, at: nat) {
    r.fault.stuckMs > 0 && r.mode == Rx && at >= r.fault.nextSpurious
  }

  function Misfire(r: Radio): Radio {
    if SpuriousDue(r, r.now) then
      r.(irq := r.irq + {PREAMBLE},
         fault := Fault(r.fault.stuckMs, r.now + r.fault.stuckMs, r.fault.raises + 1))
    else r
  }

  /** How much of a frame the chip keeps: its length register is one byte. */
  function Kept(frame: seq<byte>): (k: seq<byte>)
    ensures |k| <= 255
  {
    frame[..Min(|frame|, 255)]
  }

  function Deliver(r: Radio): Radio {
    if r.inbox == [] then r
    else
      var kept := Kept(r.inbox[0]);
      r.(rxLen := |kept|,
         buffer := WriteAt(r.buffer, r.rxBase, kept),
         inbox := r.inbox[1..],
         irq := r.irq + {RX_DONE, PREAMBLE, HEADER, SYNC_WORD})
  }

  /** Milliseconds since the channel went busy, in the unsigned 64-bit arithmetic of the source. */
  function SinceBusy(busySince: nat, at: nat): int {
    if at >= busySince then at - busySince else at - busySince + TWO_64
  }

  /** Whether `symbols` symbols of the busy signal have gone by: elapsed >= symbols * 2^sf / bandwidth,
      compared exactly by cross-multiplication. */
  predicate Heard(r: Radio, at: nat, symbols: nat) {
    SinceBusy(r.air.since, at) * Bandwidth(r.modem) >= 1000 * symbols * Pow2(r.modem.sf)
  }

  function Bandwidth(m: Modem): (hz: nat)
    ensures hz > 0
  {
    if m.bwHz > 0 then m.bwHz else 250000
  }

  function DetectPreamble(r: Radio): Radio {
    if r.air.busy && !r.air.preambleRaised && Heard(r, r.now, PREAMBLE_SYMBOLS) then
      r.(irq := r.irq + {PREAMBLE}, air := r.air.(preambleRaised := true), preambleRaises := r.preambleRaises + 1)
    else r
  }

  function DetectHeader(r: Radio): Radio {
    if r.air.busy && !r.air.headerRaised && Heard(r, r.now, HEADER_SYMBOLS) then
      r.(irq := r.irq + {HEADER, SYNC_WORD}, air := r.air.(headerRaised := true))
    else r
  }

  function TickTo(r: Radio, at: nat): Radio {
    var a := Misfire(Accrue(r, at));
    if a.mode == Rx then DetectHeader(DetectPreamble(Deliver(a))) else a
  }

  function BusyChanged(r: Radio, busy: bool): Radio {
    r.(air := Air(busy, if busy && !r.air.busy then r.now else r.air.since,
                  busy && r.air.preambleRaised, busy && r.air.headerRaised))
  }

  function FinishTransmit(r: Radio): Radio {
    if r.mode == Tx then r.(irq := r.irq + {TX_DONE}, mode := Standby) else r
  }

  // ---- the firmware's side ----

  /** The frame a SetTx would put on the air now. */
  function Outgoing(r: Radio): seq<byte> {
    Slice(r.buffer, r.txBase, r.txLen)
  }

  function StartTx(r: Radio): Radio {
    r.(mode := Tx, fem := FrontEnd(r.fem.enabled, r.fem.enabled, true), outbox := Outbox(true, Outgoing(r)))
  }

  function StartCad(r: Radio): Radio {
    r.(irq := r.irq + if r.air.busy then {CAD_DONE, CAD_DETECTED} else {CAD_DONE}, mode := Standby)
  }

  /** The PLL step of the datasheet: 32 MHz / 2^25 per unit, which is 15625 / 16384 Hz. */
  function PllToHz(raw: nat): nat {
    raw * 15625 / 16384
  }

  /** Bandwidth code to hertz; an unmapped code keeps the current setting. */
  function BandwidthHz(code: byte, current: nat): nat {
    match code
    case 0x00 => 7810
    case 0x08 => 10420
    case 0x01 => 15630
    case 0x09 => 20830
    case 0x02 => 31250
    case 0x0A => 41670
    case 0x03 => 62500
    case 0x04 => 125000
    case 0x05 => 250000
    case 0x06 => 500000
    case _ => current
  }

  function Decode(out: seq<byte>): Action
    requires |out| > 0
  {
    var op, n := out[0], |out|;
    if op == SET_STANDBY || op == SET_SLEEP then EnterMode(Standby)
    else if op == SET_RX then EnterMode(Rx)
    else if op == SET_TX then StartTransmit
    else if op == SET_CAD then StartScan
    else if op == SET_RF_FREQUENCY && n >= 5 then
      Frequency(PllToHz(0x1_0000 * Word(out[1], out[2]) + Word(out[3], out[4])))
    else if op == SET_TX_PARAMS && n >= 2 then Power(Signed(out[1]))
    else if op == CALIBRATE then ResetGain
    else if op == SET_MODULATION_PARAMS && n >= 4 then Modulation(out[1], out[2], out[3])
    else if op == SET_PACKET_PARAMS && n >= 7 then PacketParams(Word(out[1], out[2]), out[4])
    else if op == SET_BUFFER_BASE && n >= 3 then BufferBase(out[1], out[2])
    else if op == WRITE_BUFFER && n >= 2 then StoreBuffer(out[1], out[2..])
    else if op == WRITE_REGISTER && n >= 3 then StoreRegs(Word(out[1], out[2]), out[3..])
    else if op == SET_DIO_IRQ_PARAMS && n >= 9 then IrqParams(Register(out[1], out[2]))
    else if op == CLEAR_IRQ_STATUS && n >= 3 then ClearIrq(Register(out[1], out[2]))
    else NoAction
  }

  function Apply(r: Radio, a: Action): Radio {
    match a
    case EnterMode(m) => r.(mode := m)
    case StartTransmit => StartTx(r)
    case StartScan => StartCad(r)
    case Frequency(hz) => r.(modem := r.modem.(freqHz := hz))
    case Power(dbm) => r.(modem := r.modem.(txPowerDbm := dbm))
    case ResetGain => r.(regs := WriteAt(r.regs, REG_RX_GAIN, [RX_GAIN_POWER_SAVING]))
    case Modulation(sf, bw, cr) =>
      r.(modem := r.modem.(sf := sf, bwHz := BandwidthHz(bw, r.modem.bwHz),
                           cr := if cr != 0 then 4 + cr else r.modem.cr))
    case PacketParams(preamble, len) => r.(modem := r.modem.(preambleSyms := preamble), txLen := len)
    case BufferBase(tx, rx) => r.(txBase := tx, rxBase := rx)
    case StoreBuffer(off, data) => r.(buffer := WriteAt(r.buffer, off, data))
    case StoreRegs(addr, data) => r.(regs := WriteAt(r.regs, addr, data))
    case IrqParams(mask) => r.(irqMask := mask)
    case ClearIrq(mask) =>
      r.(irq := r.irq - mask,
         air := r.air.(preambleRaised := r.air.preambleRaised && PREAMBLE !in mask,
                       headerRaised := r.air.headerRaised && HEADER !in mask))
    case NoAction => r
  }

  /** The effect of a command on the chip. A command of no bytes does nothing. */
  function Exec(r: Radio, out: seq<byte>): Radio {
    if out == [] then r else Apply(r, Decode(out))
  }

  /** Byte i of the reply to a command. Position 1 carries the status byte; the getters answer
      from position 2 on, behind the length guards of the source. */
  function ReplyAt(r: Radio, out: seq<byte>, i: nat): byte
    requires i < |out|
  {
    var op, n := out[0], |out|;
    if i == 1 then STATUS_BYTE
    else if op == READ_BUFFER then if n >= 3 && i >= 3 then ByteAt(r.buffer, out[1] + (i - 3)) else 0
    else if op == READ_REGISTER then if n >= 4 && i >= 4 then ByteAt(r.regs, Word(out[1], out[2]) + (i - 4)) else 0
    else if op == GET_IRQ_STATUS then
      if n >= 4 && i == 2 then High(r.irq) else if n >= 5 && i == 3 then Low(r.irq) else 0
    else if op == GET_RX_BUFFER_STATUS then
      if n >= 4 && i == 2 then r.rxLen else if n >= 5 && i == 3 then r.rxBase else 0
    else if op == GET_PACKET_STATUS then
      if i == 2 || i == 4 then r.rssi else if i == 3 then r.snr else 0
    else if op == GET_RSSI_INST then if i == 2 then r.rssi else 0
    else if op == GET_PACKET_TYPE then if i == 2 then 1 else 0
    else 0
  }

  function Reply(r: Radio, out: seq<byte>): (reply: seq<byte>)
    ensures |reply| == |out|
  {
    seq(|out|, i requires 0 <= i < |out| => ReplyAt(r, out, i))
  }

  predicate IrqAsserted(r: Radio) {
    r.irq * r.irqMask != {}
  }

  // ---- runs ----

  function Step(r: Radio, op: Op): Radio {
    match op
    case Tick(at) => TickTo(r, at)
    case ChannelBusy(busy) => BusyChanged(r, busy)
    case TransmitFinished => FinishTransmit(r)
    case PushFrame(frame) => r.(inbox := r.inbox + [frame])
    case LastSignal(rssi, snr) => r.(rssi := rssi, snr := snr)
    case Fem(on) => r.(fem := r.fem.(enabled := on))
    case StuckIrq(ms) => r.(fault := r.fault.(stuckMs := ms))
    case Drain => r.(outbox := r.outbox.(waiting := false))
    case Command(out) => Exec(r, out)
  }

  /** Any history of the chip. Every property of a run is stated for an arbitrary list of operations. */
  function Run(r: Radio, ops: seq<Op>): Radio {
    if ops == [] then r else Step(Run(r, ops[..|ops| - 1]), ops[|ops| - 1])
  }

  lemma {:induction false} RunConcat(r: Radio, a: seq<Op>, b: seq<Op>)
    ensures Run(r, a + b) == Run(Run(r, a), b)
    decreases |b|
  {
    if b == [] {
      assert a + b == a;
    } else {
      assert (a + b)[..|a + b| - 1] == a + b[..|b| - 1];
      RunConcat(r, a, b[..|b| - 1]);
    }
  }

  /** One more operation of a run. */
  lemma RunNext(r: Radio, ops: seq<Op>, k: nat)
    requires k < |ops|
    ensures Run(r, ops[..k + 1]) == Step(Run(r, ops[..k]), ops[k])
  {
    assert ops[..k + 1][..k] == ops[..k];
  }

  /** The bits a command names for clearing; nothing but ClearIrqStatus names any. */
  function ClearMask(op: Op): Bits {
    if op.Command? && op.out != [] && Decode(op.out).ClearIrq? then Decode(op.out).mask else {}
  }

  /** Bit b is not cleared at or after position k. */
  ghost predicate NotClearedFrom(ops: seq<Op>, k: nat, b: nat) {
    forall j :: k <= j < |ops| ==> b !in ClearMask(ops[j])
  }
}
