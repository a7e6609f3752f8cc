/**
 * The 37-byte record in which a node reports what its chip has seen and how it is set, its
 * two independent writers, and what the engine recovers from it.
 */
module Stats {
  import opened Bytes
  import opened Radio
  import opened Clocking
  import opened Device

  const RECORD: nat := 37
  const TWO_32: nat := 0x1_0000_0000

  /** The low 32 bits, most significant byte first. */
  function Put32(v: nat): (s: seq<byte>)
    ensures |s| == 4
  {
    [v / 0x100_0000 % 256, v / 0x1_0000 % 256, v / 256 % 256, v % 256]
  }

  function Put16(v: nat): (s: seq<byte>)
    ensures |s| == 2
  {
    [v / 256 % 256, v % 256]
  }

  function ModeByte(m: Mode): byte {
    match m
    case Standby => 0
    case Rx => 1
    case Tx => 2
    case Cad => 3
  }

  /** A number from -128 to 127 in two's complement; anything else loses its upper bits. */
  function TwosComplement(v: int): byte {
    v % 256
  }

  /** No transmission yet, module out, module in. */
  function FemState(f: FrontEnd): byte {
    if !f.hasTransmitted then 0 else if f.atTx then 2 else 1
  }

  /** Bytes 0 to 35: four counters, what the radio has been configured to be, and its flags. */
  function Body(c: Chip): (s: seq<byte>)
    ensures |s| == RECORD - 1
  {
    var r, m := c.radio, c.radio.modem;
    Put32(c.irqReads) + Put32(c.busyReads) + Put32(r.busyMs) + Put32(r.fault.raises)
    + [ByteAt(r.regs, REG_RX_GAIN)] + [TwosComplement(m.txPowerDbm)] + [if r.fem.enabled then 1 else 0]
    + [ModeByte(r.mode)] + [m.sf % 256] + [m.cr % 256]
    + Put32(m.freqHz) + Put32(m.bwHz) + Put16(m.preambleSyms)
    + [High(r.irqMask), Low(r.irqMask)] + [High(r.irq), Low(r.irq)]
  }

  /** What follows the two read counters is about the radio alone. */
  lemma AfterReads(c: Chip)
    ensures Body(c)[8..] == Body(c.(irqReads := 0, busyReads := 0))[8..]
  {
    hide Put32, Put16, High, Low, TwosComplement, ModeByte, ByteAt;
    var a, b := Body(c), Body(c.(irqReads := 0, busyReads := 0));
    forall i | 8 <= i < RECORD - 1 ensures a[i] == b[i] {
    }
  }

  // ---- the two writers ----

  method Fill(sb: array<byte>, at: nat, data: seq<byte>)
    requires at + |data| <= sb.Length
    modifies sb
    ensures sb[..at + |data|] == old(sb[..at]) + data
  {
    for i := 0 to |data|
      invariant sb[..at] == old(sb[..at]) && sb[at..at + i] == data[..i]
    {
      sb[at + i] := data[i];
    }
    assert sb[..at + |data|] == sb[..at] + sb[at..at + |data|];
  }

  method Fill32(sb: array<byte>, at: nat, v: nat)
    requires at + 4 <= sb.Length
    modifies sb
    ensures sb[..at + 4] == old(sb[..at]) + Put32(v)
  {
    sb[at] := v / 0x100_0000 % 256;
    sb[at + 1] := v / 0x1_0000 % 256;
    sb[at + 2] := v / 256 % 256;
    sb[at + 3] := v % 256;
  }

  method Fill16(sb: array<byte>, at: nat, v: nat)
    requires at + 2 <= sb.Length
    modifies sb
    ensures sb[..at + 2] == old(sb[..at]) + Put16(v)
  {
    sb[at] := v / 256 % 256;
    sb[at + 1] := v % 256;
  }

  /** The radio server's writer. */
  method ServerRecord(chip: VirtualSX1262) returns (sb: array<byte>)
    requires chip.Valid()
    ensures fresh(sb) && sb[..] == Body(chip.State()) + [FemState(chip.fem)]
  {
    hide Put32, Put16, High, Low, TwosComplement, ModeByte, FemState;
    sb := new byte[RECORD](_ => 0);
    FillInTurn(sb, chip.irqReads, chip.busyReads, chip.busyMs, chip.fault.raises);
    Fill(sb, 16, [chip.regs[REG_RX_GAIN]]);
    Fill(sb, 17, [TwosComplement(chip.modem.txPowerDbm)]);
    Fill(sb, 18, [if chip.fem.enabled then 1 else 0]);
    Fill(sb, 19, [ModeByte(chip.mode)]);
    Fill(sb, 20, [chip.modem.sf % 256]);
    Fill(sb, 21, [chip.modem.cr % 256]);
    Fill32(sb, 22, chip.modem.freqHz);
    Fill32(sb, 26, chip.modem.bwHz);
    Fill16(sb, 30, chip.modem.preambleSyms);
    Fill(sb, 32, [High(chip.irqMask), Low(chip.irqMask)]);
    Fill(sb, 34, [High(chip.irq), Low(chip.irq)]);
    Fill(sb, 36, [FemState(chip.fem)]);
    assert sb[..] == sb[..37];
  }

  method FillInTurn(sb: array<byte>, a: nat, b: nat, c: nat, d: nat)
    requires sb.Length >= 16
    modifies sb
    ensures sb[..16] == Put32(a) + Put32(b) + Put32(c) + Put32(d)
  {
    hide Put32;
    Fill32(sb, 0, a);
    Fill32(sb, 4, b);
    Fill32(sb, 8, c);
    Fill32(sb, 12, d);
  }

  /** The bridge's writer: the counters in a loop, and never an answer about the front end. */
  method BridgeRecord(chip: VirtualSX1262) returns (sb: array<byte>)
    requires chip.Valid()
    ensures fresh(sb) && sb[..] == Body(chip.State()) + [0]
  {
    hide Put32, Put16, High, Low, TwosComplement, ModeByte, FemState;
    sb := new byte[RECORD](_ => 0);
    FillCounters(sb, [chip.irqReads, chip.busyReads, chip.busyMs, chip.fault.raises]);
    Fill(sb, 16, [chip.regs[REG_RX_GAIN]]);
    Fill(sb, 17, [TwosComplement(chip.modem.txPowerDbm)]);
    Fill(sb, 18, [if chip.fem.enabled then 1 else 0]);
    Fill(sb, 19, [ModeByte(chip.mode)]);
    Fill(sb, 20, [chip.modem.sf % 256]);
    Fill(sb, 21, [chip.modem.cr % 256]);
    Fill32(sb, 22, chip.modem.freqHz);
    Fill32(sb, 26, chip.modem.bwHz);
    Fill16(sb, 30, chip.modem.preambleSyms);
    Fill(sb, 32, [High(chip.irqMask), Low(chip.irqMask)]);
    Fill(sb, 34, [High(chip.irq), Low(chip.irq)]);
    Fill(sb, 36, [0]);
    assert sb[..] == sb[..37];
  }

  method FillCounters(sb: array<byte>, st: seq<nat>)
    requires |st| == 4 && sb.Length >= 16
    modifies sb
    ensures sb[..16] == Put32(st[0]) + Put32(st[1]) + Put32(st[2]) + Put32(st[3])
  {
    hide Put32;
    for k := 0 to 4
      invariant sb[..4 * k] == Put32s(st[..k])
    {
      ghost var before := sb[..4 * k];
      sb[k * 4 + 0] := st[k] / 0x100_0000 % 256;
      sb[k * 4 + 1] := st[k] / 0x1_0000 % 256;
      sb[k * 4 + 2] := st[k] / 256 % 256;
      sb[k * 4 + 3] := st[k] % 256;
      assert sb[..4 * k + 4] == before + [sb[k * 4], sb[k * 4 + 1], sb[k * 4 + 2], sb[k * 4 + 3]];
      Digits(st[k]);
      assert st[..k + 1][..k] == st[..k];
    }
    assert st[..4] == st;
    FourCounters(st);
  }

  function Put32s(vs: seq<nat>): (s: seq<byte>)
    ensures |s| == 4 * |vs|
  {
    if vs == [] then [] else Put32s(vs[..|vs| - 1]) + Put32(vs[|vs| - 1])
  }

  lemma Digits(v: nat)
    ensures Put32(v) == [v / 0x100_0000 % 256, v / 0x1_0000 % 256, v / 256 % 256, v % 256]
  {
  }

  lemma FourCounters(vs: seq<nat>)
    requires |vs| == 4
    ensures Put32s(vs) == Put32(vs[0]) + Put32(vs[1]) + Put32(vs[2]) + Put32(vs[3])
  {
    hide Put32;
    assert vs[..3][..2] == vs[..2] && vs[..2][..1] == vs[..1] && vs[..1][..0] == [];
    assert Put32s(vs[..1]) == Put32(vs[0]);
    assert Put32s(vs[..2]) == Put32s(vs[..1]) + Put32(vs[1]);
    assert Put32s(vs[..3]) == Put32s(vs[..2]) + Put32(vs[2]);
  }

  // ---- what the engine recovers ----

  function Get32(s: seq<byte>, at: nat): nat
    requires at + 4 <= |s|
  {
    0x1_0000 * Word(s[at], s[at + 1]) + Word(s[at + 2], s[at + 3])
  }

  function Get16(s: seq<byte>, at: nat): nat
    requires at + 2 <= |s|
  {
    Word(s[at], s[at + 1])
  }

  lemma GetPut32(v: nat)
    ensures Get32(Put32(v), 0) == v % TWO_32
  {
    Digits(v);
    WordOf(v);
    WordOf(v / 0x1_0000);
    Split(v);
    hide Put32, Word;
  }

  lemma Split(v: nat)
    ensures v / 0x1_0000 / 256 == v / 0x100_0000
    ensures 0x1_0000 * (v / 0x1_0000 % 0x1_0000) + v % 0x1_0000 == v % TWO_32
  {
  }

  /** Settings a driver can reach: what fits the fields of the record. */
  predicate InRange(m: Modem) {
    && m.sf < 256 && m.freqHz < TWO_32 && 0 < m.bwHz < TWO_32 && m.preambleSyms < 0x1_0000
    && -128 <= m.txPowerDbm < 128
  }

  lemma StepInRange(r: Radio, op: Op)
    requires InRange(r.modem)
    ensures InRange(Step(r, op).modem)
  {
    hide WriteAt, Heard, Register, Outgoing, Kept;
    if op.Command? && op.out != [] {
      ActionInRange(r, op.out);
    }
  }

  lemma ActionInRange(r: Radio, out: seq<byte>)
    requires out != [] && InRange(r.modem)
    ensures InRange(Apply(r, Decode(out)).modem)
  {
    hide WriteAt, Register, Outgoing;
  }

  lemma {:induction false} RunInRange(r: Radio, ops: seq<Op>)
    requires InRange(r.modem)
    ensures InRange(Run(r, ops).modem)
    decreases |ops|
  {
    hide Step, InRange;
    if ops != [] {
      RunInRange(r, ops[..|ops| - 1]);
      StepInRange(Run(r, ops[..|ops| - 1]), ops[|ops| - 1]);
    }
  }

  lemma ReachableInRange(stuckMs: nat, ops: seq<Op>)
    ensures InRange(Run(PowerUp(stuckMs), ops).modem)
  {
    RunInRange(PowerUp(stuckMs), ops);
  }

  /** What the engine reads out of a record is what the chip holds: the counters modulo 2^32, the settings exactly but
      for a coding rate over 255, which loses its upper bits, and both interrupt registers bit for bit. */
  predicate Tells(s: seq<byte>, c: Chip)
    requires |s| == RECORD
  {
    var r, m := c.radio, c.radio.modem;
    && Get32(s, 0) == c.irqReads % TWO_32 && Get32(s, 4) == c.busyReads % TWO_32
    && Get32(s, 8) == r.busyMs % TWO_32 && Get32(s, 12) == r.fault.raises % TWO_32
    && s[16] == ByteAt(r.regs, REG_RX_GAIN) && Signed(s[17]) == m.txPowerDbm && (s[18] == 1 <==> r.fem.enabled)
    && (s[19] == 0 <==> r.mode == Standby) && (s[19] == 1 <==> r.mode == Rx) && (s[19] == 2 <==> r.mode == Tx)
    && s[20] == m.sf && s[21] == m.cr % 256 && (s[21] == m.cr <==> m.cr < 256)
    && Get32(s, 22) == m.freqHz && Get32(s, 26) == m.bwHz && Get16(s, 30) == m.preambleSyms
    && Register(s[32], s[33]) == (set b | b in r.irqMask && b < 16)
    && Register(s[34], s[35]) == (set b | b in r.irq && b < 16)
  }

  /** So it is from either program's record, whatever its last byte, for any chip with settings in range. */
  lemma RecordDecodes(c: Chip, tail: byte)
    requires InRange(c.radio.modem)
    ensures Tells(Body(c) + [tail], c) && (Body(c) + [tail])[36] == tail
  {
    var r, m := c.radio, c.radio.modem;
    FieldsDecode(m);
    RecordLayout(c, tail);
    hide Body, Put32, High, Low, Get32, Word, TwosComplement, ByteAt, ModeByte, Register, InRange, Signed;
    var s := Body(c) + [tail];
    var six := s[16..22];
    assert six[0] == s[16] && six[1] == s[17] && six[2] == s[18];
    assert six[3] == s[19] && six[4] == s[20] && six[5] == s[21];
    GetPut32(c.irqReads);
    GetPut32(c.busyReads);
    GetPut32(r.busyMs);
    GetPut32(r.fault.raises);
    GetPut32(m.freqHz);
    GetPut32(m.bwHz);
    RegisterRoundTrip(r.irqMask);
    RegisterRoundTrip(r.irq);
  }

  /** And so for every chip that can be reached from power-up, however it is clocked. */
  lemma ReachableRecordDecodes(stuckMs: nat, es: seq<Event>, tail: byte)
    ensures var c := RunChip(PowerUpChip(stuckMs), es);
            Tells(Body(c) + [tail], c)
  {
    var p := PowerUpChip(stuckMs);
    RunIsOps(p, es);
    ReachableInRange(stuckMs, Ops(p, es));
    hide RunChip, Tells, Body, Run;
    RecordDecodes(RunChip(p, es), tail);
  }

  lemma FieldsDecode(m: Modem)
    requires InRange(m)
    ensures Signed(TwosComplement(m.txPowerDbm)) == m.txPowerDbm && m.sf % 256 == m.sf
    ensures m.cr % 256 == m.cr <==> m.cr < 256
    ensures m.freqHz % TWO_32 == m.freqHz && m.bwHz % TWO_32 == m.bwHz
    ensures Word(m.preambleSyms / 256 % 256, m.preambleSyms % 256) == m.preambleSyms
  {
  }

  lemma RecordLayout(c: Chip, tail: byte)
    ensures var s, r, m := Body(c) + [tail], c.radio, c.radio.modem;
            && Get32(s, 0) == Get32(Put32(c.irqReads), 0) && Get32(s, 4) == Get32(Put32(c.busyReads), 0)
            && Get32(s, 8) == Get32(Put32(r.busyMs), 0) && Get32(s, 12) == Get32(Put32(r.fault.raises), 0)
            && s[16..22] == [ByteAt(r.regs, REG_RX_GAIN), TwosComplement(m.txPowerDbm), if r.fem.enabled then 1 else 0,
                             ModeByte(r.mode), m.sf % 256, m.cr % 256]
            && Get32(s, 22) == Get32(Put32(m.freqHz), 0) && Get32(s, 26) == Get32(Put32(m.bwHz), 0)
            && s[30] == m.preambleSyms / 256 % 256 && s[31] == m.preambleSyms % 256
            && s[32] == High(r.irqMask) && s[33] == Low(r.irqMask) && s[34] == High(r.irq) && s[35] == Low(r.irq)
            && s[36] == tail
  {
    hide Put32, High, Low, TwosComplement, ModeByte, Get32, ByteAt;
    var r, m := c.radio, c.radio.modem;
    var s := Body(c) + [tail];
    assert s[0..4] == Put32(c.irqReads) && s[4..8] == Put32(c.busyReads);
    assert s[8..12] == Put32(r.busyMs) && s[12..16] == Put32(r.fault.raises);
    assert s[22..26] == Put32(m.freqHz) && s[26..30] == Put32(m.bwHz);
    GetAt(s, 0);
    GetAt(s, 4);
    GetAt(s, 8);
    GetAt(s, 12);
    GetAt(s, 22);
    GetAt(s, 26);
  }

  lemma GetAt(s: seq<byte>, at: nat)
    requires at + 4 <= |s|
    ensures Get32(s, at) == Get32(s[at..at + 4], 0)
  {
  }

  /** Distinct entries of the bandwidth table stay distinct in the record. */
  lemma BandwidthsDistinct(a: byte, b: byte, current: nat)
    requires a <= 0x0A && b <= 0x0A && a != 7 && b != 7
    ensures BandwidthHz(a, current) == BandwidthHz(b, current) <==> a == b
  {
  }

  // ---- the frequency ----

  /** The frequency of the greatest 32-bit word. */
  const MAX_HZ: nat := 4095999999

  /** The least PLL word for a frequency. */
  function PllWord(hz: nat): nat {
    (hz * 16384 + 15624) / 15625
  }

  /** The conversion is the exact floor of word * 15625 / 16384, it loses no frequency (every whole number of
      hertz is some word's, PllWord is the least, and it is a 32-bit word up to the frequency of the greatest of
      them), and it never decreases. */
  lemma PllExact(hz: nat, a: nat, b: nat)
    ensures 16384 * PllToHz(a) <= 15625 * a < 16384 * (PllToHz(a) + 1)
    ensures PllToHz(PllWord(hz)) == hz && (PllWord(hz) < TWO_32 <==> hz <= MAX_HZ)
    ensures PllToHz(a) == hz ==> PllWord(hz) <= a
    ensures a <= b ==> PllToHz(a) <= PllToHz(b)
  {
  }
}
