/**
 * What the firmware has programmed, over whole runs: every setting is that of the last command that
 * named it, and every register holds the last byte written to it, whatever else happened since.
 */
module Settings {
  import opened Bytes
  import opened Radio
  import opened Clocking

  // ---- settings ----

  predicate Issues(op: Op, opcode: byte) {
    op.Command? && op.out != [] && op.out[0] == opcode
  }

  ghost predicate NotIssuedFrom(ops: seq<Op>, k: nat, opcode: byte) {
    forall j :: k <= j < |ops| ==> !Issues(ops[j], opcode)
  }

  /** The two chips agree on what this opcode sets. */
  predicate SameSetting(a: Radio, b: Radio, opcode: byte) {
    if opcode == SET_RF_FREQUENCY then a.modem.freqHz == b.modem.freqHz
    else if opcode == SET_TX_PARAMS then a.modem.txPowerDbm == b.modem.txPowerDbm
    else if opcode == SET_MODULATION_PARAMS then
      a.modem.sf == b.modem.sf && a.modem.bwHz == b.modem.bwHz && a.modem.cr == b.modem.cr
    else if opcode == SET_PACKET_PARAMS then a.modem.preambleSyms == b.modem.preambleSyms && a.txLen == b.txLen
    else if opcode == SET_BUFFER_BASE then a.txBase == b.txBase && a.rxBase == b.rxBase
    else if opcode == SET_DIO_IRQ_PARAMS then a.irqMask == b.irqMask
    else true
  }

  lemma StepKeepsSetting(r: Radio, op: Op, opcode: byte)
    requires !Issues(op, opcode)
    ensures SameSetting(r, Step(r, op), opcode)
  {
    hide TickTo, Apply, Decode, SameSetting;
    if op.Tick? {
      TickKeepsSetting(r, op.at, opcode);
    } else if op.Command? && op.out != [] {
      ActionKeepsSetting(r, op.out, opcode);
    } else {
      OtherKeepsSetting(r, op, opcode);
    }
  }

  lemma TickKeepsSetting(r: Radio, at: nat, opcode: byte)
    ensures SameSetting(r, TickTo(r, at), opcode)
  {
    hide WriteAt, Kept, Heard;
  }

  lemma ActionKeepsSetting(r: Radio, out: seq<byte>, opcode: byte)
    requires out != [] && out[0] != opcode
    ensures SameSetting(r, Apply(r, Decode(out)), opcode)
  {
    hide WriteAt, BandwidthHz, Outgoing, Register, PllToHz, Word, Signed;
  }

  lemma OtherKeepsSetting(r: Radio, op: Op, opcode: byte)
    requires !op.Tick? && !(op.Command? && op.out != [])
    ensures SameSetting(r, Step(r, op), opcode)
  {
    hide TickTo, Apply, Decode;
  }

  lemma {:induction false} RunKeepsSetting(r: Radio, ops: seq<Op>, opcode: byte)
    requires NotIssuedFrom(ops, 0, opcode)
    ensures SameSetting(r, Run(r, ops), opcode)
    decreases |ops|
  {
    hide Step;
    if ops != [] {
      var n := |ops| - 1;
      RunKeepsSetting(r, ops[..n], opcode);
      StepKeepsSetting(Run(r, ops[..n]), ops[n], opcode);
    }
  }

  /** What a chip must hold right after a command that sets something. */
  predicate Holds(r: Radio, out: seq<byte>)
    requires out != []
  {
    var op, n, m := out[0], |out|, r.modem;
    if op == SET_RF_FREQUENCY && n >= 5 then
      m.freqHz == PllToHz(0x100_0000 * out[1] as nat + 0x1_0000 * out[2] as nat + 0x100 * out[3] as nat + out[4] as nat)
    else if op == SET_TX_PARAMS && n >= 2 then m.txPowerDbm == Signed(out[1])
    else if op == SET_MODULATION_PARAMS && n >= 4 then
      && m.sf == out[1]
      && (out[2] <= 0x0A && out[2] != 7 ==> m.bwHz == BandwidthHz(out[2], 0))
      && (out[3] != 0 ==> m.cr == 4 + out[3] as nat)
    else if op == SET_PACKET_PARAMS && n >= 7 then m.preambleSyms == Word(out[1], out[2]) && r.txLen == out[4]
    else if op == SET_BUFFER_BASE && n >= 3 then r.txBase == out[1] && r.rxBase == out[2]
    else if op == SET_DIO_IRQ_PARAMS && n >= 9 then r.irqMask == Register(out[1], out[2])
    else true
  }

  lemma CommandSets(r: Radio, out: seq<byte>)
    requires out != []
    ensures Holds(Exec(r, out), out)
  {
    hide WriteAt, Outgoing, Register, PllToHz, Signed;
  }

  lemma HoldsByAgreement(a: Radio, b: Radio, out: seq<byte>)
    requires out != [] && Holds(a, out) && SameSetting(a, b, out[0])
    ensures Holds(b, out)
  {
    hide PllToHz, BandwidthHz, Register, Word, Signed;
  }

  /** Over any run, from any state: what a command set is still set at the end if no later command had the
      same opcode, whatever ticks, frames, resets of the gain, mode changes and other settings came after. */
  lemma LastSettingHolds(r: Radio, ops: seq<Op>, k: nat)
    requires k < |ops| && ops[k].Command? && ops[k].out != [] && NotIssuedFrom(ops, k + 1, ops[k].out[0])
    ensures Holds(Run(r, ops), ops[k].out)
  {
    hide Exec, Holds, SameSetting, Run;
    var out := ops[k].out;
    var before, rest := Run(r, ops[..k]), ops[k + 1..];
    RunNext(r, ops, k);
    CommandSets(before, out);
    assert ops[..k + 1] + rest == ops;
    RunConcat(r, ops[..k + 1], rest);
    forall j | 0 <= j < |rest| ensures !Issues(rest[j], out[0]) {
      assert rest[j] == ops[k + 1 + j];
    }
    RunKeepsSetting(Exec(before, out), rest, out[0]);
    HoldsByAgreement(Exec(before, out), Run(r, ops), out);
  }

  // ---- registers ----

  datatype Written = Nothing | Value(b: byte)

  /** What an operation writes to the register at this address: WriteRegister its bytes in sequence, and
      calibration the default gain. */
  function WrittenTo(op: Op, address: nat): Written {
    if !op.Command? || op.out == [] then Nothing
    else if op.out[0] == CALIBRATE && address == REG_RX_GAIN then Value(RX_GAIN_POWER_SAVING)
    else if op.out[0] == WRITE_REGISTER && |op.out| >= 3 then
      var first := Word(op.out[1], op.out[2]);
      if first <= address < first + |op.out| - 3 then Value(op.out[3 + address - first]) else Nothing
    else Nothing
  }

  ghost predicate NotWrittenFrom(ops: seq<Op>, k: nat, address: nat) {
    forall j :: k <= j < |ops| ==> WrittenTo(ops[j], address) == Nothing
  }

  lemma StepRegister(r: Radio, op: Op, address: nat)
    requires Sized(r) && address < REGISTERS
    ensures Sized(Step(r, op))
    ensures Step(r, op).regs[address] == match WrittenTo(op, address) case Nothing => r.regs[address] case Value(b) => b
  {
    StepKeepsSize(r, op);
    hide TickTo, Apply, Decode, WrittenTo, Sized;
    if op.Tick? {
      TickKeepsRegisters(r, op.at);
    } else if op.Command? && op.out != [] {
      CommandRegister(r, op.out, address);
    }
    if !op.Command? || op.out == [] {
      OnlyCommandsWrite(op, address);
    }
  }

  lemma OnlyCommandsWrite(op: Op, address: nat)
    requires !op.Command? || op.out == []
    ensures WrittenTo(op, address) == Nothing
  {
  }

  lemma TickKeepsRegisters(r: Radio, at: nat)
    ensures TickTo(r, at).regs == r.regs
  {
    hide WriteAt, Kept, Heard;
  }

  lemma CommandRegister(r: Radio, out: seq<byte>, address: nat)
    requires Sized(r) && address < REGISTERS && out != []
    ensures var regs := Apply(r, Decode(out)).regs;
            && |regs| == REGISTERS
            && regs[address]
                 == match WrittenTo(Command(out), address) case Nothing => r.regs[address] case Value(b) => b
  {
    hide BandwidthHz, Outgoing, Register, PllToHz, Word, Signed;
  }

  /** Over any run, a register holds the last byte written to it, and its old value if none was. */
  lemma {:induction false} RegisterIsLastWritten(r: Radio, ops: seq<Op>, address: nat)
    requires Sized(r) && address < REGISTERS
    ensures Sized(Run(r, ops))
    ensures NotWrittenFrom(ops, 0, address) ==> Run(r, ops).regs[address] == r.regs[address]
    ensures forall k: nat :: k < |ops| && WrittenTo(ops[k], address).Value? && NotWrittenFrom(ops, k + 1, address) ==>
              Run(r, ops).regs[address] == WrittenTo(ops[k], address).b
    decreases |ops|
  {
    hide Step, WrittenTo;
    if ops != [] {
      var n := |ops| - 1;
      var front := ops[..n];
      RegisterIsLastWritten(r, front, address);
      StepRegister(Run(r, front), ops[n], address);
      forall k: nat | k <= n && NotWrittenFrom(ops, k, address)
        ensures WrittenTo(ops[n], address) == Nothing && NotWrittenFrom(front, k, address)
      {
        assert forall j :: k <= j < n ==> front[j] == ops[j];
      }
      forall k: nat | k <= n && WrittenTo(ops[k], address).Value? && NotWrittenFrom(ops, k + 1, address)
        ensures Run(r, ops).regs[address] == WrittenTo(ops[k], address).b
      {
        if k < n {
          assert front[k] == ops[k] && NotWrittenFrom(front, k + 1, address);
        }
      }
    }
  }

  function ReadRegisterCommand(address: nat, len: nat): (cmd: seq<byte>)
    requires address < 0x1_0000
    ensures |cmd| == 4 + len
  {
    [READ_REGISTER, address / 256, address % 256, 0] + seq(len, _ => 0)
  }

  /** So what the firmware reads back, from any register by any ReadRegister that covers it, is what it last wrote
      there, from power-up on: or the version string, the default gain, or zero where it wrote nothing. */
  lemma ReadBack(stuckMs: nat, ops: seq<Op>, first: nat, len: nat, i: nat)
    requires first + i < REGISTERS && i < len
    ensures var answer := Reply(Run(PowerUp(stuckMs), ops), ReadRegisterCommand(first, len))[4 + i];
            && (NotWrittenFrom(ops, 0, first + i) ==> answer == PowerUp(stuckMs).regs[first + i])
            && forall k: nat ::
                 k < |ops| && WrittenTo(ops[k], first + i).Value? && NotWrittenFrom(ops, k + 1, first + i) ==>
                   answer == WrittenTo(ops[k], first + i).b
  {
    PowerUpSized(stuckMs);
    RegisterIsLastWritten(PowerUp(stuckMs), ops, first + i);
    hide Run, WrittenTo, PowerUp;
    ReadOne(Run(PowerUp(stuckMs), ops), first, len, i);
  }

  lemma ReadOne(r: Radio, first: nat, len: nat, i: nat)
    requires Sized(r) && first + i < REGISTERS && i < len
    ensures Reply(r, ReadRegisterCommand(first, len))[4 + i] == r.regs[first + i]
  {
    var cmd := ReadRegisterCommand(first, len);
    assert Word(cmd[1], cmd[2]) == first;
    hide Word;
    assert ReplyAt(r, cmd, 4 + i) == ByteAt(r.regs, first + i);
  }
}
