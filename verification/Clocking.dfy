/**
 * The two ways of clocking the chip. A native driver hands over a whole SPI buffer; an
 * emulated one moves single bytes between chip-select edges, and the chip rebuilds the
 * command, answering each byte from the same decoder run on a padded prefix.
 *
 * Main results: exactly which commands the two forms treat alike (state and replies), that
 * whole sessions of such commands are indistinguishable, and that a session in either form
 * is a run of the plain state machine of Radio.
 */
module Clocking {
  import opened Bytes
  import opened Radio

  /** What the streaming buffers of the source hold. */
  const SCRATCH: nat := 260
  const PADDED_MIN: nat := 16

  /** The chip with its transaction in flight and its two counters of IRQ register reads. */
  datatype Chip = Chip(radio: Radio, irqReads: nat, busyReads: nat, link: Link)

  /** The bytes since chip select fell, and whether it is still low. */
  datatype Link = Link(txn: seq<byte>, open: bool)

  const IDLE: Link := Link([], false)

  function PowerUpChip(stuckMs: nat): Chip {
    Chip(PowerUp(stuckMs), 0, 0, IDLE)
  }

  datatype Event =
    | Direct(op: Op)      // a call of the simulator, or a whole SPI buffer
    | Select              // chip select falls
    | Clock(out: byte)     // one byte clocked
    | Release             // chip select rises

  predicate ReturnsData(op: byte) {
    op in {READ_BUFFER, READ_REGISTER, GET_IRQ_STATUS, GET_RX_BUFFER_STATUS, GET_PACKET_STATUS,
           GET_STATUS, GET_DEVICE_ERRORS, GET_PACKET_TYPE}
  }

  function RunCommand(c: Chip, out: seq<byte>): Chip
    requires out != []
  {
    var polls := if out[0] == GET_IRQ_STATUS then 1 else 0;
    c.(radio := Exec(c.radio, out),
       irqReads := c.irqReads + polls,
       busyReads := c.busyReads + if ShowsBusy(c.radio.irq) then polls else 0)
  }

  /** What the decoder sees after the bytes so far: at most 260 of them, zero-padded to at least 16. */
  function Padded(txn: seq<byte>): (p: seq<byte>)
    ensures |p| == Max(Min(|txn|, SCRATCH), PADDED_MIN)
  {
    seq(Max(Min(|txn|, SCRATCH), PADDED_MIN), k requires 0 <= k => ByteAt(txn, k))
  }

  /** The first 260 bytes: all that a released command keeps. */
  function Cut(txn: seq<byte>): seq<byte> {
    txn[..Min(|txn|, SCRATCH)]
  }

  /** The answer to the last byte of txn. */
  function StreamReply(r: Radio, txn: seq<byte>): byte
    requires txn != []
  {
    var i := |txn| - 1;
    if ReturnsData(txn[0]) then if i < SCRATCH then ReplyAt(r, Padded(txn), i) else 0
    else if i == 1 then STATUS_BYTE else 0
  }

  function SelectChip(c: Chip): Chip {
    c.(link := Link([], true))
  }

  /** The transaction including one more byte. A byte with no chip select opens one. */
  function Extended(l: Link, out: byte): Link {
    Link((if l.open then l.txn else []) + [out], true)
  }

  function ClockByte(c: Chip, out: byte): Chip {
    var got := c.(link := Extended(c.link, out));
    if ReturnsData(got.link.txn[0]) then RunCommand(got, Padded(got.link.txn)) else got
  }

  function ReleaseChip(c: Chip): Chip {
    var txn, closed := c.link.txn, c.(link := IDLE);
    if txn == [] || ReturnsData(txn[0]) then closed else RunCommand(closed, Cut(txn))
  }

  function StepChip(c: Chip, e: Event): Chip {
    match e
    case Direct(Command(out)) => if out == [] then c else RunCommand(c, out)
    case Direct(op) => c.(radio := Step(c.radio, op))
    case Select => SelectChip(c)
    case Clock(out) => ClockByte(c, out)
    case Release => ReleaseChip(c)
  }

  /** The bytes the chip shifts out during one event. */
  function Answer(c: Chip, e: Event): seq<byte> {
    match e
    case Direct(Command(out)) => Reply(c.radio, out)
    case Clock(out) => [StreamReply(c.radio, Extended(c.link, out).txn)]
    case _ => []
  }

  function RunChip(c: Chip, es: seq<Event>): Chip {
    if es == [] then c else StepChip(RunChip(c, es[..|es| - 1]), es[|es| - 1])
  }

  function Answers(c: Chip, es: seq<Event>): seq<byte> {
    if es == [] then []
    else Answers(c, es[..|es| - 1]) + Answer(RunChip(c, es[..|es| - 1]), es[|es| - 1])
  }

  lemma {:induction false} RunChipConcat(c: Chip, a: seq<Event>, b: seq<Event>)
    ensures RunChip(c, a + b) == RunChip(RunChip(c, a), b)
    ensures Answers(c, a + b) == Answers(c, a) + Answers(RunChip(c, a), b)
    decreases |b|
  {
    hide StepChip, Answer;
    if b == [] {
      assert a + b == a;
    } else {
      assert (a + b)[..|a + b| - 1] == a + b[..|b| - 1];
      RunChipConcat(c, a, b[..|b| - 1]);
    }
  }

  lemma OneEvent(c: Chip, e: Event)
    ensures RunChip(c, [e]) == StepChip(c, e) && Answers(c, [e]) == Answer(c, e)
  {
    hide StepChip, Answer;
    assert [e][..0] == [];
    assert RunChip(c, []) == c;
  }

  // ---- one command, streamed ----

  function Clocks(cmd: seq<byte>): (es: seq<Event>)
    ensures |es| == |cmd|
  {
    seq(|cmd|, i requires 0 <= i < |cmd| => Clock(cmd[i]))
  }

  function Streamed(cmd: seq<byte>): seq<Event> {
    [Select] + Clocks(cmd) + [Release]
  }

  /** The reads a getter performs change nothing but the counters. */
  lemma ReadsChangeNothing(r: Radio, out: seq<byte>)
    requires out != [] && ReturnsData(out[0])
    ensures Exec(r, out) == r
  {
  }

  /** Clocking one byte collects it; a getter also counts it as a read of the IRQ register. */
  lemma ClockByteEffect(c: Chip, out: byte)
    ensures var txn := Extended(c.link, out).txn;
            var polls := if txn[0] == GET_IRQ_STATUS then 1 else 0;
            StepChip(c, Clock(out)) == Chip(c.radio, c.irqReads + polls,
                                            c.busyReads + (if ShowsBusy(c.radio.irq) then polls else 0),
                                            Extended(c.link, out))
    ensures Answer(c, Clock(out)) == [StreamReply(c.radio, Extended(c.link, out).txn)]
  {
    hide Exec;
    var txn := Extended(c.link, out).txn;
    if ReturnsData(txn[0]) {
      ReadsChangeNothing(c.radio, Padded(txn));
    }
  }

  /** Mid-command: the bytes are only collected, and a getter counts each byte as a read. */
  lemma {:induction false} Collecting(c: Chip, cmd: seq<byte>)
    requires c.link == Link([], true)
    ensures var polls := if cmd != [] && cmd[0] == GET_IRQ_STATUS then |cmd| else 0;
            RunChip(c, Clocks(cmd)) == Chip(c.radio, c.irqReads + polls,
                                            c.busyReads + (if ShowsBusy(c.radio.irq) then polls else 0),
                                            Link(cmd, true))
    ensures |Answers(c, Clocks(cmd))| == |cmd|
    ensures forall i :: 0 <= i < |cmd| ==> Answers(c, Clocks(cmd))[i] == StreamReply(c.radio, cmd[..i + 1])
    decreases |cmd|
  {
    hide StepChip, Answer, StreamReply;
    if cmd != [] {
      var n := |cmd| - 1;
      var front := cmd[..n];
      assert Clocks(cmd)[..n] == Clocks(front);
      Collecting(c, front);
      ClockByteEffect(RunChip(c, Clocks(front)), cmd[n]);
      assert cmd[..n + 1] == front + [cmd[n]] == cmd;
      forall i {:trigger StreamReply(c.radio, front[..i + 1])} | 0 <= i < n
        ensures front[..i + 1] == cmd[..i + 1] {
      }
    }
  }

  /** What the two chip-select edges do. */
  lemma EdgeEffects(c: Chip)
    ensures StepChip(c, Select) == c.(link := Link([], true)) && Answer(c, Select) == []
    ensures Answer(c, Release) == []
    ensures c.link.txn != [] ==>
              StepChip(c, Release) == Chip(Exec(c.radio, Cut(c.link.txn)), c.irqReads, c.busyReads, IDLE)
  {
    hide Exec;
    var txn := c.link.txn;
    if txn != [] && ReturnsData(txn[0]) {
      ReadsChangeNothing(c.radio, Cut(txn));
    }
  }

  /** The reply to a command clocked by bytes, each byte answered after the prefix that ends in it. */
  function StreamedReply(r: Radio, cmd: seq<byte>): (reply: seq<byte>)
    ensures |reply| == |cmd|
  {
    seq(|cmd|, i requires 0 <= i < |cmd| => StreamReply(r, cmd[..i + 1]))
  }

  /** One whole command by bytes: what is left behind and what came back. */
  lemma {:induction false} StreamedCommand(c: Chip, cmd: seq<byte>)
    requires cmd != []
    ensures var d := RunChip(c, Streamed(cmd));
            var polls := if cmd[0] == GET_IRQ_STATUS then |cmd| else 0;
            d == Chip(Exec(c.radio, Cut(cmd)), c.irqReads + polls,
                      c.busyReads + (if ShowsBusy(c.radio.irq) then polls else 0), IDLE)
    ensures Answers(c, Streamed(cmd)) == StreamedReply(c.radio, cmd)
  {
    hide StepChip, Answer, StreamReply, Clocks, Exec;
    var open, body := SelectChip(c), [Select] + Clocks(cmd);
    OneEvent(c, Select);
    RunChipConcat(c, [Select], Clocks(cmd));
    Collecting(open, cmd);
    OneEvent(RunChip(c, body), Release);
    RunChipConcat(c, body, [Release]);
    EdgeEffects(c);
    EdgeEffects(RunChip(c, body));
  }

  /** Bytes clocked with no chip select open a transaction of their own. */
  lemma {:induction false} WithoutSelect(c: Chip, cmd: seq<byte>)
    requires !c.link.open && cmd != []
    ensures RunChip(c, Clocks(cmd) + [Release]) == RunChip(c, Streamed(cmd))
    ensures Answers(c, Clocks(cmd) + [Release]) == Answers(c, Streamed(cmd))
  {
    var first, rest := [Clock(cmd[0])], Clocks(cmd[1..]) + [Release];
    assert Clocks(cmd) + [Release] == first + rest;
    assert Streamed(cmd) == [Select] + (first + rest);
    FirstByteOpens(c, cmd[0]);
    hide StepChip, Answer;
    RunChipConcat(c, first, rest);
    OneEvent(c, Clock(cmd[0]));
    var o := SelectChip(c);
    RunChipConcat(c, [Select], first + rest);
    OneEvent(c, Select);
    RunChipConcat(o, first, rest);
    OneEvent(o, Clock(cmd[0]));
  }

  lemma FirstByteOpens(c: Chip, out: byte)
    requires !c.link.open
    ensures StepChip(c, Clock(out)) == StepChip(SelectChip(c), Clock(out)) && StepChip(c, Select) == SelectChip(c)
    ensures Answer(c, Clock(out)) == Answer(SelectChip(c), Clock(out)) && Answer(c, Select) == []
  {
    hide RunCommand;
  }

  // ---- which commands the two forms treat alike ----

  /** A WriteRegister so long that bytes beyond the 260th would still have hit registers. */
  predicate LosesRegisters(cmd: seq<byte>) {
    |cmd| > SCRATCH && cmd[0] == WRITE_REGISTER && Word(cmd[1], cmd[2]) + (SCRATCH - 3) < REGISTERS
  }

  /** A chip whose memories have the sizes of the real ones. */
  ghost predicate Sized(r: Radio) {
    |r.buffer| == BUFFER_SIZE && |r.regs| == REGISTERS
  }

  lemma PowerUpSized(stuckMs: nat)
    ensures Sized(PowerUp(stuckMs))
  {
  }

  lemma StepKeepsSize(r: Radio, op: Op)
    requires Sized(r)
    ensures Sized(Step(r, op))
  {
    hide Heard, Decode, BandwidthHz, Kept;
  }

  /** No command but the two memory writes looks past its first bytes. */
  lemma CutKeepsAction(cmd: seq<byte>)
    requires |cmd| > SCRATCH && cmd[0] != WRITE_BUFFER && cmd[0] != WRITE_REGISTER
    ensures Decode(Cut(cmd)) == Decode(cmd)
  {
    assert forall k :: 0 <= k < SCRATCH ==> Cut(cmd)[k] == cmd[k];
  }

  lemma CutKeepsEffect(r: Radio, cmd: seq<byte>)
    requires cmd != [] && Sized(r) && !LosesRegisters(cmd)
    ensures Exec(r, Cut(cmd)) == Exec(r, cmd)
  {
    hide Apply;
    var short := Cut(cmd);
    if |cmd| <= SCRATCH {
      assert short == cmd;
    } else if cmd[0] == WRITE_BUFFER {
      CutStore(r, short, cmd);
    } else if cmd[0] == WRITE_REGISTER {
      CutStore(r, short, cmd);
    } else {
      CutKeepsAction(cmd);
    }
  }

  lemma CutStore(r: Radio, short: seq<byte>, cmd: seq<byte>)
    requires |cmd| > SCRATCH && short == Cut(cmd) && Sized(r) && !LosesRegisters(cmd)
    requires cmd[0] == WRITE_BUFFER || cmd[0] == WRITE_REGISTER
    ensures Apply(r, Decode(short)) == Apply(r, Decode(cmd))
  {
    assert forall k :: 0 <= k < SCRATCH ==> short[k] == cmd[k];
    if cmd[0] == WRITE_BUFFER {
      assert Decode(short) == StoreBuffer(cmd[1], short[2..]) && Decode(cmd) == StoreBuffer(cmd[1], cmd[2..]);
      assert WriteAt(r.buffer, cmd[1], short[2..]) == WriteAt(r.buffer, cmd[1], cmd[2..]);
    } else {
      var addr := Word(cmd[1], cmd[2]);
      assert Decode(short) == StoreRegs(addr, short[3..]) && Decode(cmd) == StoreRegs(addr, cmd[3..]);
      assert WriteAt(r.regs, addr, short[3..]) == WriteAt(r.regs, addr, cmd[3..]);
    }
  }

  /** Clocked whole or by bytes, a command leaves every chip in the same state if and only if it
      is not an over-long register write. */
  lemma {:induction false} SameEffectIff(cmd: seq<byte>)
    requires cmd != []
    ensures (forall c: Chip {:trigger RunChip(c, Streamed(cmd))} :: Sized(c.radio) ==>
              RunChip(c, Streamed(cmd)).radio == StepChip(c, Direct(Command(cmd))).radio)
            <==> !LosesRegisters(cmd)
  {
    hide RunChip, StartTx, StartCad, BandwidthHz, PllToHz;
    if LosesRegisters(cmd) {
      // a chip whose registers all differ from the first byte that gets lost
      var lost: byte := if cmd[SCRATCH] == 0 then 1 else 0;
      var at := Word(cmd[1], cmd[2]) + (SCRATCH - 3);
      var c := Chip(PowerUp(0).(regs := seq(REGISTERS, _ => lost)), 0, 0, IDLE);
      StreamedCommand(c, cmd);
      assert Exec(c.radio, Cut(cmd)).regs[at] == lost;
      assert Exec(c.radio, cmd).regs[at] == cmd[SCRATCH];
      assert Sized(c.radio);
    } else {
      forall c: Chip | Sized(c.radio)
        ensures RunChip(c, Streamed(cmd)).radio == StepChip(c, Direct(Command(cmd))).radio
      {
        StreamedCommand(c, cmd);
        CutKeepsEffect(c.radio, cmd);
      }
    }
  }

  /** The loss is met: of 258 registers written at address 0 of a new chip, the last stays as it was when the command is
      clocked by bytes. */
  lemma LongWriteLoses()
    ensures var cmd := [WRITE_REGISTER, 0, 0] + seq(258, _ => 1);
            && LosesRegisters(cmd)
            && ByteAt(StepChip(PowerUpChip(0), Direct(Command(cmd))).radio.regs, 257) == 1
            && ByteAt(RunChip(PowerUpChip(0), Streamed(cmd)).radio.regs, 257) == 0
            && ByteAt(RunChip(PowerUpChip(0), Streamed(cmd)).radio.regs, 256) == 1
  {
    var cmd, c := [WRITE_REGISTER, 0, 0] + seq(258, _ => 1), PowerUpChip(0);
    StreamedCommand(c, cmd);
    PowerUpSized(0);
    assert c.radio.regs[257] == 0;
    hide PowerUp, RunChip, Exec;
    LongWrite(c.radio, cmd);
    WriteFrom0(c.radio, Cut(cmd));
  }

  lemma LongWrite(r: Radio, cmd: seq<byte>)
    requires |cmd| == 261 && cmd[0] == WRITE_REGISTER && cmd[1] == cmd[2] == 0 && cmd[260] == 1 && Sized(r)
    ensures Exec(r, cmd).regs[257] == 1 && |Exec(r, cmd).regs| == REGISTERS
  {
    WriteFrom0(r, cmd);
  }

  lemma WriteFrom0(r: Radio, cmd: seq<byte>)
    requires |cmd| >= 3 && cmd[0] == WRITE_REGISTER && cmd[1] == cmd[2] == 0 && Sized(r)
    ensures Exec(r, cmd).regs == WriteAt(r.regs, 0, cmd[3..])
  {
    assert Decode(cmd) == StoreRegs(0, cmd[3..]);
    hide Decode, WriteAt;
  }

  /** Position i of the reply is one the buffered form withholds and the padded form gives, or
      the other way round, or one past the 260 bytes the streaming form can answer. */
  predicate AnsweredApart(cmd: seq<byte>, i: nat) {
    i < |cmd| &&
    (|| (cmd[0] in {GET_IRQ_STATUS, GET_RX_BUFFER_STATUS} && i == |cmd| - 1 && i in {2, 3})
     || (cmd[0] == GET_RSSI_INST && i == 2)
     || (cmd[0] == READ_REGISTER && i >= SCRATCH && Word(cmd[1], cmd[2]) + (i - 4) < REGISTERS))
  }

  /** Which form gives the value at such a position: the bytes for the two status commands, whose length
      guards padding satisfies; the whole buffer for the rest. */
  predicate OnlyByBytes(op: byte) {
    op == GET_IRQ_STATUS || op == GET_RX_BUFFER_STATUS
  }

  /** The value only one of the two forms gives at such a position. */
  function OneSidedValue(r: Radio, cmd: seq<byte>, i: nat): byte
    requires AnsweredApart(cmd, i)
  {
    if cmd[0] == GET_IRQ_STATUS then if i == 2 then High(r.irq) else Low(r.irq)
    else if cmd[0] == GET_RX_BUFFER_STATUS then if i == 2 then r.rxLen else r.rxBase
    else if cmd[0] == GET_RSSI_INST then r.rssi
    else ByteAt(r.regs, Word(cmd[1], cmd[2]) + (i - 4))
  }

  /** How byte i of the two replies to a command relate: equal, or one the value and the other zero. */
  predicate Related(r: Radio, cmd: seq<byte>, i: nat, whole: byte, byBytes: byte)
    requires i < |cmd|
  {
    if !AnsweredApart(cmd, i) then whole == byBytes
    else if OnlyByBytes(cmd[0]) then whole == 0 && byBytes == OneSidedValue(r, cmd, i)
    else whole == OneSidedValue(r, cmd, i) && byBytes == 0
  }

  /** Byte by byte, for every state and every command of any length: the two replies agree, except that at
      the positions named above the form named there gives the value and the other answers zero. */
  lemma ReplyByteApart(r: Radio, cmd: seq<byte>, i: nat)
    requires Sized(r) && i < |cmd|
    ensures Related(r, cmd, i, Reply(r, cmd)[i], StreamedReply(r, cmd)[i])
  {
    var txn := cmd[..i + 1];
    assert txn[0] == cmd[0];
    if ReturnsData(cmd[0]) && i < SCRATCH {
      var p := Padded(txn);
      assert forall k :: 0 <= k <= i ==> p[k] == cmd[k];
    }
  }

  /** The four bytes with which the driver polls the flags: handed over whole they bring back the upper half
      of the register and never the lower, by bytes both. */
  lemma FourBytePoll(r: Radio)
    requires Sized(r)
    ensures var poll := [GET_IRQ_STATUS, 0, 0, 0];
            && Reply(r, poll) == [0, STATUS_BYTE, High(r.irq), 0]
            && StreamedReply(r, poll) == [0, STATUS_BYTE, High(r.irq), Low(r.irq)]
  {
    var poll := [GET_IRQ_STATUS, 0, 0, 0];
    forall i | 0 <= i < 4 ensures Related(r, poll, i, Reply(r, poll)[i], StreamedReply(r, poll)[i]) {
      ReplyByteApart(r, poll, i);
    }
    hide StreamReply, High, Low;
  }

  /** The replies agree on every chip if and only if the command has no such position. */
  lemma SameReplyIff(cmd: seq<byte>)
    requires cmd != []
    ensures (forall c: Chip {:trigger Answers(c, Streamed(cmd))} :: Sized(c.radio) ==>
              Answers(c, Streamed(cmd)) == Answer(c, Direct(Command(cmd))))
            <==> (forall i: nat :: !AnsweredApart(cmd, i))
  {
    hide RunChip, Answers, Exec, StreamReply, StreamedReply, ReplyAt, High, Low;
    forall c: Chip | Sized(c.radio) && forall i: nat :: !AnsweredApart(cmd, i)
      ensures Answers(c, Streamed(cmd)) == Answer(c, Direct(Command(cmd)))
    {
      StreamedCommand(c, cmd);
      forall i | 0 <= i < |cmd| ensures StreamedReply(c.radio, cmd)[i] == Reply(c.radio, cmd)[i] {
        ReplyByteApart(c.radio, cmd, i);
      }
    }
    if i: nat :| AnsweredApart(cmd, i) {
      var r := PowerUp(0).(rxLen := 1, rxBase := 1, irq := {0, 8}, rssi := 1, regs := seq(REGISTERS, _ => 1));
      var c := Chip(r, 0, 0, IDLE);
      StreamedCommand(c, cmd);
      ReplyByteApart(r, cmd, i);
      BytesNonzero(r.irq);
      assert Sized(c.radio);
    }
  }

  // ---- whole sessions ----

  /** What happens to a chip over a session: calls of the simulator, and SPI commands. */
  datatype Item = Call(op: Op) | Spi(cmd: seq<byte>)

  function WholeItem(item: Item): Event {
    if item.Call? then Direct(item.op) else Direct(Command(item.cmd))
  }

  function ByteItem(item: Item): seq<Event> {
    if item.Call? then [Direct(item.op)] else Streamed(item.cmd)
  }

  function Whole(session: seq<Item>): seq<Event> {
    if session == [] then []
    else
      Whole(session[..|session| - 1]) + [WholeItem(session[|session| - 1])]
  }

  function ByBytes(session: seq<Item>): seq<Event> {
    if session == [] then []
    else
      ByBytes(session[..|session| - 1]) + ByteItem(session[|session| - 1])
  }

  /** The further bytes of a GetIrqStatus: the byte form counts each as one more read. */
  function FurtherPolls(item: Item): nat {
    if item.Spi? && item.cmd != [] && item.cmd[0] == GET_IRQ_STATUS then |item.cmd| - 1 else 0
  }

  /** How many reads the byte form counts more over a session. */
  function ExtraReads(session: seq<Item>): nat {
    if session == [] then 0 else ExtraReads(session[..|session| - 1]) + FurtherPolls(session[|session| - 1])
  }

  /** And how many of them with a busy flag up. */
  function ExtraBusyReads(c: Chip, session: seq<Item>): nat {
    if session == [] then 0
    else
      var front := session[..|session| - 1];
      ExtraBusyReads(c, front)
      + if ShowsBusy(RunChip(c, Whole(front)).radio.irq) then FurtherPolls(session[|session| - 1]) else 0
  }

  /** What each item of a session is answered, one entry an item. */
  function WholeReplies(c: Chip, session: seq<Item>): (replies: seq<seq<byte>>)
    ensures |replies| == |session|
  {
    if session == [] then []
    else
      var front := session[..|session| - 1];
      WholeReplies(c, front) + [Answer(RunChip(c, Whole(front)), WholeItem(session[|session| - 1]))]
  }

  function ByteReplies(c: Chip, session: seq<Item>): (replies: seq<seq<byte>>)
    ensures |replies| == |session|
  {
    if session == [] then []
    else
      var front := session[..|session| - 1];
      ByteReplies(c, front) + [Answers(RunChip(c, ByBytes(front)), ByteItem(session[|session| - 1]))]
  }

  function Flat(replies: seq<seq<byte>>): seq<byte> {
    if replies == [] then [] else Flat(replies[..|replies| - 1]) + replies[|replies| - 1]
  }

  /** How the two answers to an item relate: as long as each other, and related byte by byte. */
  predicate RelatedReplies(r: Radio, item: Item, whole: seq<byte>, byBytes: seq<byte>) {
    match item
    case Call(_) => whole == byBytes
    case Spi(cmd) =>
      |whole| == |byBytes| == |cmd| && forall i :: 0 <= i < |cmd| ==> Related(r, cmd, i, whole[i], byBytes[i])
  }

  predicate KeepsState(session: seq<Item>) {
    forall k :: 0 <= k < |session| && session[k].Spi? && session[k].cmd != [] ==> !LosesRegisters(session[k].cmd)
  }

  lemma EmptyCommand(c: Chip)
    requires c.link == IDLE
    ensures RunChip(c, Streamed([])) == c && Answers(c, Streamed([])) == []
  {
    hide RunCommand;
    assert Streamed([]) == [Select] + [Release];
    RunChipConcat(c, [Select], [Release]);
    OneEvent(c, Select);
    OneEvent(SelectChip(c), Release);
  }

  /** One item of a session, from two chips that differ at most in their read counters. */
  lemma SameItem(w: Chip, b: Chip, item: Item)
    requires w.radio == b.radio && w.link == b.link == IDLE && Sized(w.radio)
    requires item.Spi? && item.cmd != [] ==> !LosesRegisters(item.cmd)
    ensures var w', b' := StepChip(w, WholeItem(item)), RunChip(b, ByteItem(item));
            && w'.radio == b'.radio && w'.link == b'.link == IDLE
            && b'.irqReads - b.irqReads == w'.irqReads - w.irqReads + FurtherPolls(item)
            && b'.busyReads - b.busyReads
                 == w'.busyReads - w.busyReads + if ShowsBusy(w.radio.irq) then FurtherPolls(item) else 0
    ensures RelatedReplies(w.radio, item, Answer(w, WholeItem(item)), Answers(b, ByteItem(item)))
  {
    hide Exec, Step, StreamReply, ReplyAt, Streamed, Related;
    if item.Call? {
      OneEvent(b, Direct(item.op));
    } else if item.cmd == [] {
      EmptyCommand(b);
    } else {
      var cmd := item.cmd;
      StreamedCommand(b, cmd);
      CutKeepsEffect(b.radio, cmd);
      forall i | 0 <= i < |cmd|
        ensures Related(w.radio, cmd, i, Reply(w.radio, cmd)[i], StreamedReply(w.radio, cmd)[i])
      {
        ReplyByteApart(b.radio, cmd, i);
      }
    }
  }

  /** Any session whatever, on any chip with no transaction open, short of over-long register writes: clocked by
      bytes or handed over whole it ends in the same state. The IRQ reads are apart by exactly the further bytes
      of the GetIrqStatus commands, and those with a busy flag up by exactly the ones clocked while it was. */
  lemma {:induction false} SameSession(c: Chip, session: seq<Item>)
    requires c.link == IDLE && Sized(c.radio) && KeepsState(session)
    ensures var w, b := RunChip(c, Whole(session)), RunChip(c, ByBytes(session));
            && w.radio == b.radio && w.link == b.link == IDLE && Sized(w.radio)
            && b.irqReads == w.irqReads + ExtraReads(session)
            && b.busyReads == w.busyReads + ExtraBusyReads(c, session)
    decreases |session|
  {
    hide StepChip, Answer, Streamed, FurtherPolls, RelatedReplies, LosesRegisters, Sized;
    if session != [] {
      var n := |session| - 1;
      var front, last := session[..n], session[n];
      SameSession(c, front);
      var w, b := RunChip(c, Whole(front)), RunChip(c, ByBytes(front));
      SameItem(w, b, last);
      RunChipConcat(c, Whole(front), [WholeItem(last)]);
      OneEvent(w, WholeItem(last));
      RunChipConcat(c, ByBytes(front), ByteItem(last));
      RunKeepsSize(c, Whole(session));
    }
  }

  /** Handed over whole, the reads counted are the GetIrqStatus commands, and the busy ones those issued with the
      preamble or the header flag up. */
  lemma {:induction false} WholeCounts(c: Chip, session: seq<Item>)
    ensures var w := RunChip(c, Whole(session));
            && w.irqReads == c.irqReads + PollsIn(session)
            && w.busyReads == c.busyReads + BusyPollsIn(c, session)
    decreases |session|
  {
    hide RunCommand, Step;
    if session != [] {
      var front, last := session[..|session| - 1], session[|session| - 1];
      WholeCounts(c, front);
      var w := RunChip(c, Whole(front));
      RunChipConcat(c, Whole(front), [WholeItem(last)]);
      OneEvent(w, WholeItem(last));
      if IssuedBy(last) != [] {
        CommandCounts(w, IssuedBy(last));
      }
    }
  }

  /** The command an item hands over, if it does. */
  function IssuedBy(item: Item): seq<byte> {
    if item.Spi? then item.cmd else if item.op.Command? then item.op.out else []
  }

  predicate IsPoll(item: Item) {
    IssuedBy(item) != [] && IssuedBy(item)[0] == 0x12
  }

  function PollsIn(session: seq<Item>): nat {
    if session == [] then 0
    else PollsIn(session[..|session| - 1]) + if IsPoll(session[|session| - 1]) then 1 else 0
  }

  function BusyPollsIn(c: Chip, session: seq<Item>): nat {
    if session == [] then 0
    else
      var front, last := session[..|session| - 1], session[|session| - 1];
      var irq := RunChip(c, Whole(front)).radio.irq;
      BusyPollsIn(c, front) + if IsPoll(last) && (2 in irq || 4 in irq) then 1 else 0
  }

  lemma CommandCounts(c: Chip, out: seq<byte>)
    requires out != []
    ensures var d, poll := RunCommand(c, out), out[0] == 0x12;
            && d.irqReads == c.irqReads + (if poll then 1 else 0)
            && d.busyReads == c.busyReads + if poll && (2 in c.radio.irq || 4 in c.radio.irq) then 1 else 0
  {
    hide Exec;
  }

  /** And whatever the session, the answers to its every item are as long as each other and equal but at the
      positions answered apart, where the form named there gives the value in the state the item met. */
  lemma {:induction false} SameAnswers(c: Chip, session: seq<Item>, k: nat)
    requires c.link == IDLE && Sized(c.radio) && KeepsState(session) && k < |session|
    ensures RelatedReplies(RunChip(c, Whole(session[..k])).radio, session[k],
                           WholeReplies(c, session)[k], ByteReplies(c, session)[k])
    decreases |session|
  {
    hide RunChip, Answer, Answers, Streamed, FurtherPolls, RelatedReplies, LosesRegisters, Sized;
    var n := |session| - 1;
    var front := session[..n];
    if k < n {
      SameAnswers(c, front, k);
      assert front[..k] == session[..k];
    } else {
      SameSession(c, front);
      SameItem(RunChip(c, Whole(front)), RunChip(c, ByBytes(front)), session[n]);
    }
  }

  /** What comes back over a session is the answers to its items, one after the other. */
  lemma {:induction false} RepliesInOrder(c: Chip, session: seq<Item>)
    ensures Answers(c, Whole(session)) == Flat(WholeReplies(c, session))
    ensures Answers(c, ByBytes(session)) == Flat(ByteReplies(c, session))
    decreases |session|
  {
    hide StepChip, Answer, Streamed;
    if session != [] {
      var n := |session| - 1;
      var front, last := session[..n], session[n];
      RepliesInOrder(c, front);
      RunChipConcat(c, Whole(front), [WholeItem(last)]);
      OneEvent(RunChip(c, Whole(front)), WholeItem(last));
      RunChipConcat(c, ByBytes(front), ByteItem(last));
    }
  }

  ghost predicate KeepsReplies(session: seq<Item>) {
    forall k, i: nat :: 0 <= k < |session| && session[k].Spi? ==> !AnsweredApart(session[k].cmd, i)
  }

  /** In particular a session with no such position is answered alike from end to end. */
  lemma {:induction false} SameStream(c: Chip, session: seq<Item>)
    requires c.link == IDLE && Sized(c.radio) && KeepsState(session) && KeepsReplies(session)
    ensures Answers(c, Whole(session)) == Answers(c, ByBytes(session))
  {
    hide RunChip, Answers, WholeReplies, ByteReplies, AnsweredApart, LosesRegisters, OneSidedValue, KeepsState;
    RepliesInOrder(c, session);
    forall k | 0 <= k < |session| ensures WholeReplies(c, session)[k] == ByteReplies(c, session)[k] {
      SameAnswers(c, session, k);
    }
    assert WholeReplies(c, session) == ByteReplies(c, session);
  }

  // ---- a session is a run of the plain state machine ----

  /** What one event does to the radio, as operations of Radio. */
  function OpsOf(l: Link, e: Event): seq<Op> {
    match e
    case Direct(op) => [op]
    case Release => if l.txn == [] || ReturnsData(l.txn[0]) then [] else [Command(Cut(l.txn))]
    case _ => []
  }

  function Ops(c: Chip, es: seq<Event>): seq<Op> {
    if es == [] then []
    else
      var n := |es| - 1;
      Ops(c, es[..n]) + OpsOf(RunChip(c, es[..n]).link, es[n])
  }

  lemma EventIsOps(c: Chip, e: Event)
    ensures StepChip(c, e).radio == Run(c.radio, OpsOf(c.link, e))
  {
    var ops := OpsOf(c.link, e);
    if ops != [] {
      RunNext(c.radio, ops, 0);
      assert ops[..1] == ops && ops[..0] == [];
    }
    if e.Clock? {
      ClockByteEffect(c, e.out);
    }
    hide TickTo, Apply;
  }

  /** Whatever way the chip is clocked, its radio goes through a run of Radio: everything proved there
      for arbitrary runs holds for both clocking paths and any mixture of them. */
  lemma {:induction false} RunIsOps(c: Chip, es: seq<Event>)
    ensures RunChip(c, es).radio == Run(c.radio, Ops(c, es))
    decreases |es|
  {
    hide StepChip, OpsOf;
    if es != [] {
      var n := |es| - 1;
      RunIsOps(c, es[..n]);
      var d := RunChip(c, es[..n]);
      EventIsOps(d, es[n]);
      RunConcat(c.radio, Ops(c, es[..n]), OpsOf(d.link, es[n]));
    }
  }

  lemma {:induction false} OpsKeepSize(r: Radio, ops: seq<Op>)
    requires Sized(r)
    ensures Sized(Run(r, ops))
    decreases |ops|
  {
    hide Step;
    if ops != [] {
      var n := |ops| - 1;
      OpsKeepSize(r, ops[..n]);
      StepKeepsSize(Run(r, ops[..n]), ops[n]);
    }
  }

  lemma RunKeepsSize(c: Chip, es: seq<Event>)
    requires Sized(c.radio)
    ensures Sized(RunChip(c, es).radio)
  {
    RunIsOps(c, es);
    OpsKeepSize(c.radio, Ops(c, es));
  }
}
