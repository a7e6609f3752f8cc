# A verified model of the virtual SX1262, its clocks and its bridges

The repository runs MeshCore firmware against a virtual SX1262 LoRa radio. The radio is a command interpreter over
a 256-byte data buffer and a 4096-byte register file, reached in two ways: whole SPI buffers from a native build,
and single bytes between chip-select edges from an emulated one. Around it are a clock that reconciles what the
firmware spends with network time, two programs that step it a millisecond at a time for the engine, a wire
framing, a statistics record written by two programs, an airtime formula written down twice, and base64.

This project models all of that and proves what it is meant to keep.

## How it is built

- `Radio` is the chip as a state machine on values: `Step` for one operation of the simulator or one SPI command,
  `Run` for any history. Every result about histories is for an arbitrary list of operations.
- `Device`, `NodeClock`, `RadioServer`, `Bridge`, `Stats`, `Wire` and `Base64` hold the imperative side: classes with
  the fields the source updates, arrays for the chip's two memories, and loops where the source has loops. Each method
  is proved to take the abstract state exactly where the specification function takes it.
- `Clocking` is the theorem of `streaming_test.cpp`: the two ways of clocking are the same radio. It is settled for
  every command, every state and every session, with the exact exceptions of the code as conditions.
- `Irq`, `Faults`, `Detection`, `Frames`, `Transmit` and `Settings` are properties of runs of `Radio`. `Clocking.RunIsOps`,
  `NodeClock.HalIsRun`, `RadioServer.ServerIsRun` and `Bridge.SessionBecame` carry them to the clocked chip, to the
  node's clock and to both programs: whatever those do, their radio goes through a run of `Radio`.
- `History` and `Bus` say the same behaviour once more from outside, without the functions of the model: what the chip is
  from the opcodes and reports it has had, and what comes back on the bus, in the datasheet's own numbers.
- `NodeFrames`, `Console` and `Tandem` are about whole programs: what a driver fetches on the native clock, what becomes of
  what the firmware prints, and the two programs side by side.
- Firmware is any program: in `Bridge` it is what its setup, its n-th loop and its n-th interrupt do through the
  platform, and results hold for all such behaviours. Since what a program does in a given run is some such list, a
  program that decides by what it reads is covered too. In `RadioServer` it is any sequence of emulator messages, and
  engine messages interleave with it arbitrarily, each step being what the source does under its mutex.

## Conventions

- Times and counters are natural numbers; the record writes counters modulo 2^32. The elapsed time since the channel
  went busy is taken in the 64-bit unsigned arithmetic of the source.
- Interrupt registers are sets of bits; `Bytes.RegisterRoundTrip` ties them to the two bytes on the bus.
- Floating point is exact arithmetic. Bandwidth is kept in hertz so that the datasheet's fractions of a kilohertz are
  exact, detection thresholds are compared by cross-multiplication, and airtimes are computed over reals. The PLL
  conversion is the exact floor of the word times 15625 / 16384, which a double represents for every 32-bit word.
- RSSI and SNR are the bytes the chip reports.

## Where the code and what is said about it disagree

The model follows the code.

- `variants/host/streaming_test.cpp:1-8` wants one reply whichever way a command is clocked. The buffered form withholds byte
  2 of a three-byte and byte 3 of a four-byte GetIrqStatus or GetRxBufferStatus, the byte form answers them; the
  buffered form answers GetRssiInst and the byte form does not; a command streamed past 260 bytes loses register
  writes and register answers. `Clocking.SameEffectIff`, `ReplyByteApart` and `SameReplyIff` say exactly when,
  `LongWriteLoses` and `FourBytePoll` that it happens.
  Both status commands are four bytes long in the vendored driver (`vendor/RadioLib/src/Module.cpp:321-324`):
  `Clocking.FourBytePoll` and `Frames.FourByteStatusMissesFrame` say what that costs.
- `variants/host/VirtualSX1262.cpp:230` says the reads change no state. GetIrqStatus counts itself, once per streamed byte;
  `Clocking.SameSession` gives the difference.
- `variants/host/VirtualSX1262.h:144-151` describes a flag that never clears. The code raises it spuriously and
  lets it be cleared; `Faults.TwinsRun` says precisely what the fault does.
- `variants/host/HostRadio.cpp:25-26` turns low-data-rate optimisation on by symbol length, the chip by spreading factor.
  `Airtime.PayloadsAgreeIff` shows the two formulas agree if and only if those decisions do, and `Airtime.ElevenAt250`
  that at an ordinary setting they do not.
- An empty channel-busy message is "not busy" to `bridge/main.cpp:244` and nothing at all to
  `bridge/radioserver.cpp:259`; a message of an unknown kind closes the first program and is skipped by the second.
  `Tandem.SameMessageIff` shows that among messages that do not move time there is no other difference, and
  `Tandem.EmptyBusyReport` that there is this one; with idle firmware `Tandem.StaysInTandemIff` says it of ticks too.
- Both writers put the low sixteen bits of a payload's length in the header and then the whole payload.
  `Wire.RoundTripIff` shows the reader recovers the messages if and only if every payload is at most 65535 bytes. Only
  console output can be longer: `RadioServer.EngineReadsAll`, `Console.EngineReadsAllIffPrinted`, and
  `Console.SetupPrintsTooMuch` for firmware that does it.
- `bridge/main.cpp:229-230` has the application collect each frame on its next loop, as from a FIFO. On the native clock
  each transfer of the driver is itself a tick that delivers the next frame onto the one being fetched:
  `NodeFrames.FrameComesBackIff`, with `NextFrameFetched` and `TornFrameFetched` for two and three frames in a row.

## Model

| member | source | states |
|---|---|---|
| Device.VirtualSX1262.constructor | variants/host/VirtualSX1262.cpp:61-89 | A new chip is in the power-up state of the model: version string and gain register in place, everything else at its default. |
| Device.VirtualSX1262.Tick | variants/host/VirtualSX1262.cpp:91-133 | The in-place tick takes the chip to `TickTo` of its old state: busy time, clock, misfire, one delivery, preamble and header detection, in that order, leaving registers and the open transaction alone. |
| Device.VirtualSX1262.AccrueBusy | variants/host/VirtualSX1262.cpp:91-97 | Busy time grows by the elapsed time exactly when a busy flag was up and time moved forward. |
| Device.VirtualSX1262.MisfireIfDue | variants/host/VirtualSX1262.cpp:107-111 | The fault raises the preamble flag, counts and re-arms, in receive mode and when due only. |
| Device.VirtualSX1262.DeliverPending | variants/host/VirtualSX1262.cpp:154-166 | Takes the oldest frame, cuts it to 255 bytes, copies it at the receive base and raises the four flags a frame implies. |
| Device.VirtualSX1262.RaisePreamble | variants/host/VirtualSX1262.cpp:120-127 | Preamble detection fires once per signal, at the exact threshold of four symbols. |
| Device.VirtualSX1262.RaiseHeader | variants/host/VirtualSX1262.cpp:128-131 | Header detection fires once per signal, at the exact threshold of twelve symbols, with the sync word. |
| Device.VirtualSX1262.SetChannelBusy | variants/host/VirtualSX1262.cpp:135-145 | The timer starts at a busy onset only; going quiet re-arms both detectors and clears no flag. |
| Device.VirtualSX1262.TransmitFinished | variants/host/VirtualSX1262.cpp:147-152 | TxDone and standby if the chip is transmitting, nothing otherwise. |
| Device.VirtualSX1262.StartTxNow | variants/host/VirtualSX1262.cpp:170-179 | Latches the front-end line and hands over the bytes the transmit base and length name. |
| Device.VirtualSX1262.StartCadNow | variants/host/VirtualSX1262.cpp:181-187 | A channel scan reports at once, detection included if the channel is busy, and is back in standby. |
| Device.VirtualSX1262.Act | variants/host/VirtualSX1262.cpp:305-439 | The command switch, with its length guards, does to the chip exactly what the decoded action does, memories updated in place. |
| Device.VirtualSX1262.AnswerGetter | variants/host/VirtualSX1262.cpp:357-434 | The reading commands fill every byte of the reply as specified, touch nothing else in the caller's buffer, and change nothing but the two read counters. |
| Device.VirtualSX1262.SpiTransfer | variants/host/VirtualSX1262.cpp:291-295 | One whole SPI buffer: new state and every reply byte. |
| Device.VirtualSX1262.BeginTransaction | variants/host/VirtualSX1262.cpp:248-251 | Chip select falling drops whatever was collected and opens a transaction. |
| Device.VirtualSX1262.TransferByte | variants/host/VirtualSX1262.cpp:253-276 | One byte: collected, and answered from the decoder run on the padded prefix, or as a status byte; opens a transaction if none is. |
| Device.VirtualSX1262.EndTransaction | variants/host/VirtualSX1262.cpp:278-289 | Chip select rising: the first 260 bytes of a non-reading command act now, a reading or an empty one does not. |
| Clocking.SameEffectIff | variants/host/VirtualSX1262.cpp:248-289 | For every command of any length: clocked by bytes or whole it leaves every chip in the same state if and only if it is not a WriteRegister whose bytes past the 260th would still hit registers. |
| Clocking.LongWriteLoses | variants/host/VirtualSX1262.cpp:278-289 | The exception is met: of 258 registers written to a new chip by bytes, the last keeps its old value. |
| Clocking.ReplyByteApart | variants/host/VirtualSX1262.cpp:253-276 | For every state, command and position: the two replies agree, except at exactly named positions, where the named form gives the named value and the other zero: the byte form gives it for the two status commands, the whole buffer for GetRssiInst and past the 260th byte of ReadRegister. |
| Clocking.SameReplyIff | variants/host/VirtualSX1262.cpp:297-439 | The two replies agree on every chip if and only if the command has no such position. |
| Clocking.StreamedCommand | variants/host/VirtualSX1262.cpp:248-289 | A command clocked by bytes acts once, at release, on its first 260 bytes; each reply byte is the padded answer to the prefix; a GetIrqStatus counts every byte. |
| Clocking.WithoutSelect | variants/host/VirtualSX1262.cpp:253-255 | Bytes clocked with no chip select open a transaction of their own: same end, same answers. |
| Clocking.SameSession | variants/host/VirtualSX1262.cpp:248-439 | Any session of simulator calls and commands without over-long register writes ends in the same state both ways; IRQ reads are apart by exactly the further bytes of each GetIrqStatus, and those with a busy flag up by exactly the ones clocked while it was. |
| Clocking.WholeCounts | variants/host/VirtualSX1262.cpp:392-398 | Handed over whole, the reads counted over a session are its GetIrqStatus commands, and the busy ones those issued with the preamble or the header flag up. |
| Clocking.SameAnswers | variants/host/VirtualSX1262.cpp:253-439 | In any such session, item by item, the two answers are as long as each other and equal at every position not answered apart; at each that is, the named form gives the value in the state the command met and the other zero. |
| Clocking.RepliesInOrder | variants/host/VirtualSX1262.cpp:248-295 | What comes back over a session is those answers, one after the other. |
| Clocking.SameStream | variants/host/streaming_test.cpp:1-8 | A session with no position answered apart is answered alike from end to end. |
| Clocking.FourBytePoll | variants/host/VirtualSX1262.cpp:392-398 | The four-byte GetIrqStatus: handed over whole it brings back the upper byte of the register and zero for the lower, clocked by bytes it brings back both. |
| Clocking.RunIsOps | variants/host/VirtualSX1262.cpp:248-295 | Any mixture of whole buffers, bytes and chip-select edges is a run of the plain radio. |
| Clocking.ReadsChangeNothing | variants/host/VirtualSX1262.cpp:228-246 | No reading command changes the radio, which is what makes evaluating prefixes safe. |
| Irq.IrqEquation | variants/host/VirtualSX1262.cpp:91-187 | For every operation the new register is the old one, less exactly the bits ClearIrqStatus named, plus exactly the bits raised. |
| Irq.UpIff | variants/host/VirtualSX1262.cpp:91-187 | Over any run a flag is up if and only if something raised it and nothing cleared it since, or it was up at the start and never cleared. |
| Irq.UpFromPowerUpIff | variants/host/VirtualSX1262.cpp:91-187 | From power-up a flag is up if and only if something raised it and nothing cleared it since. |
| Irq.Latched | variants/host/VirtualSX1262.cpp:135-145 | A flag outlives the signal: it stays up until a ClearIrqStatus names it. |
| Irq.RunKeepsBooked | variants/host/VirtualSX1262.cpp:121-145 | Invariant: a detector that has fired implies a busy channel and its flag up. |
| Irq.BusyAgainIsNothing | variants/host/VirtualSX1262.cpp:135-145 | A repeated busy report changes nothing, so it never restarts the timer. |
| Irq.RaisesBounded | variants/host/VirtualSX1262.cpp:121-145 | Preamble reports are at most busy onsets plus clears of the preamble flag, one fewer while a signal is still unreported. |
| Faults.TwinsRun | variants/host/VirtualSX1262.cpp:99-111 | A faulty and a good chip fed one history stay equal in everything but preamble flag, busy time and fault state; the faulty one shows a preamble the good one does not exactly while a misfire stands uncleared; its busy time is never smaller. |
| Faults.TwinsReply | variants/host/VirtualSX1262.cpp:297-439 | Only GetIrqStatus can tell the two apart. |
| Faults.MisfiresOncePerPeriod | variants/host/VirtualSX1262.cpp:107-111 | Ticked every millisecond in receive mode, a faulty chip misfires when first due and then exactly once per period: the count and the next due time, for every end. |
| Faults.LieOnQuietChannel | variants/host/VirtualSX1262.cpp:107-111 | On a quiet channel with nothing waiting, the preamble flag of a faulty chip is up exactly from its first misfire on, and that of a good one never. |
| Faults.CountersInTime | variants/host/VirtualSX1262.cpp:91-111 | Under a clock that never goes back and with a fixed period, the misfires never exceed one per period plus one, the next being at least a period per misfire from zero. |
| Faults.BusyTimeInTime | variants/host/VirtualSX1262.cpp:91-97 | Under a clock that never goes back, busy time never exceeds the time, whatever is done to the fault. |
| Detection.TickSizeIrrelevant | variants/host/VirtualSX1262.cpp:113-133 | In an unbroken stretch of listening any ticks that end at an instant leave what a history-free formula says for that instant. |
| Detection.SameReport | variants/host/VirtualSX1262.cpp:113-133 | Two chips ticked differently to the same instant report the same. |
| Detection.ByTheMillisecond | variants/host/VirtualSX1262.cpp:91-133 | Ticked every millisecond, preamble and header flags come up at exactly the rounded-up times of four and twelve symbols, and busy time is exactly the time since the first. |
| Detection.HeardFrom | variants/host/VirtualSX1262.cpp:120-128 | The threshold is passed from the rounded-up symbol time on, and not before. |
| Detection.FlagsFromReport | variants/host/VirtualSX1262.cpp:118-145 | From the report of a signal on a quiet channel, after any forward ticks to an instant: the preamble flag is up if and only if 4 symbols have gone by since the report, header and sync word if and only if 12 have, rounded up to milliseconds. |
| Detection.SeventeenMs | variants/host/VirtualSX1262.cpp:118-136 | At SF10 and 250 kHz the flag is down 16 ms after the report and up at 17. |
| Detection.TickBehindOnset | variants/host/VirtualSX1262.cpp:121-131 | A tick back to before the signal began counts the time since as unsigned: every threshold is past and both flags come up at once. |
| Frames.FramesConserved | variants/host/VirtualSX1262.cpp:113-166 | At every moment of every run: waiting at the start, then pushed, equals delivered, then still waiting, in order. |
| Frames.KeptIs | variants/host/VirtualSX1262.cpp:157-158 | A frame is kept whole up to 255 bytes, and its first 255 of more. |
| Frames.StatusThenReadIff | variants/host/VirtualSX1262.cpp:409-413 | After a delivery, with anything in between that neither delivers nor rewrites the buffer, a status command of any length and then a ReadBuffer of what it says, handed over whole, give back the frame's first 255 bytes if and only if the status command has five bytes or more, or four and the frame stands at zero, or there is nothing to read. |
| Frames.StatusThenReadByBytesIff | variants/host/VirtualSX1262.cpp:253-276 | Clocked by bytes, the same with one byte less: four bytes are enough wherever the frame is. |
| Frames.FourByteStatusMissesFrame | variants/host/VirtualSX1262.cpp:409-413 | The failing input: four bytes handed over whole with the receive base at one bring back the wrong byte, by bytes the right one. |
| NodeFrames.FetchedIs | variants/host/SimHal.h:68-73 | On a native node, where every transfer ticks the chip: exactly what a status command of any length and the read of what it says bring back: with five bytes the frame the first finds overlaid with the one delivered before the second, with four as much from offset zero, with fewer nothing. |
| NodeFrames.FrameComesBackIff | variants/host/SimHal.h:68-73 | With a status command long enough the frame in place comes back if and only if the chip is out of receive mode, or nothing waits, or what comes down on the way happens to say the same. |
| NodeFrames.QuietFetchIff | variants/host/SimHal.h:68-73 | Out of receive mode or with nothing waiting, the length of the status command alone decides, as on the bare chip. |
| NodeFrames.NextFrameFetched | variants/host/VirtualSX1262.cpp:154-166 | Two frames in a row on a new node: the driver asks about the first and gets the second. |
| NodeFrames.TornFrameFetched | variants/host/VirtualSX1262.cpp:154-166 | Three in a row: it gets the third laid over the second, a frame nobody sent. |
| Transmit.TransmitRoundTrip | variants/host/VirtualSX1262.cpp:170-179 | WriteBuffer, SetPacketParams, SetTx: the outgoing frame is exactly the bytes written, and the front-end line is latched. |
| Transmit.TransmitInAnyOrder | variants/host/VirtualSX1262.cpp:170-179 | In any run: if the last thing written to the buffer was the bytes at the transmit base, the base is there again in the end, and the last packet length set is theirs, before or after, SetTx hands over exactly those bytes. |
| Transmit.Deaf | variants/host/VirtualSX1262.cpp:113-120 | While transmitting, nothing raises a flag or delivers a frame; flags go down on request only and what arrives waits in order. |
| Transmit.ModesOverRuns | variants/host/VirtualSX1262.cpp:147-187 | Ended transmissions plus the one going on never exceed the SetTx commands, and the scan mode is never seen between operations. |
| History.ModeIsLastMove | variants/host/VirtualSX1262.cpp:147-187 | Over any run the mode is that of the last command that moves it: receive after opcode 0x82, transmit after 0x83 until the transmission is finished, standby otherwise; ticks, frames, reports and other commands move nothing. |
| History.ModeUnmoved | variants/host/VirtualSX1262.cpp:147-152 | With no such command, only the end of a transmission moves the mode, out of transmit and into standby. |
| History.SignalSinceOnset | variants/host/VirtualSX1262.cpp:135-145 | A signal is on the air, since the clock stood where it did at the report on a quiet channel, until the channel is reported quiet, whatever else happens. |
| History.QuietIsLastReported | variants/host/VirtualSX1262.cpp:144 | A channel last reported quiet is quiet. |
| History.ClockIsLastTick | variants/host/VirtualSX1262.cpp:96-97 | The clock is where the last tick put it. |
| History.SignalIsLastMeasured | variants/host/VirtualSX1262.h:53-54 | Strength and quality are what was last measured. |
| History.LineIsLastDriven | variants/host/VirtualSX1262.h:77-78 | The front end's line is at its last level. |
| History.LineAtLastTransmit | variants/host/VirtualSX1262.cpp:170-179 | What is kept of it is its level at the last SetTx, whatever it did after. |
| History.NotYetTransmitted | variants/host/VirtualSX1262.h:88-92 | A chip says it has transmitted if and only if there was a SetTx. |
| History.BusyTimeIsTimeFlagged | variants/host/VirtualSX1262.cpp:91-97 | Busy time is exactly the time between ticks at whose end a busy flag was up, for ticks of any size. |
| History.PeriodIsLastSet | variants/host/VirtualSX1262.h:151 | The period of the fault is the last one set. |
| History.RaisesAreDetections | variants/host/VirtualSX1262.cpp:123-127 | The count of preamble reports is exactly the ticks at which a signal not yet reported had been heard for 4 symbols in receive mode; nothing resets it. |
| Transmit.WireIsLastPerSlot | bridge/radioserver.cpp:195-199 | Between drains, the wire carries the last committed frame of each slot and nothing else. |
| Transmit.InOrderOnce | bridge/radioserver.cpp:195-199 | What survives sits at strictly increasing positions of what was committed: nothing duplicated, nothing reordered. |
| Transmit.LosslessIff | variants/host/VirtualSX1262.cpp:170-179 | Nothing is lost if and only if no slot has two SetTx. |
| NodeClock.SimHal.AdvanceUs | variants/host/SimHal.h:105-108 | Time spent moves the clock and ticks the chip to it. |
| NodeClock.SimHal.SpiTransfer | variants/host/SimHal.h:68-73 | A transfer costs 30 us plus 2 a byte and is answered by the chip as it stands after that time. |
| NodeClock.SimHal.BeginTick | variants/host/SimHal.h:82-86 | Network time moves the clock forward only. |
| NodeClock.ClockClosedForm | variants/host/SimHal.h:54-108 | Over any run the clock is the maximum of all time spent and, over the ticks so far, network time plus what was spent since: overspending carries. |
| NodeClock.HalIsRun | variants/host/SimHal.h:68-108 | Time never goes back, the chip's clock is always the node's in whole milliseconds, and the chip goes through a run of the radio with time only forward. |
| NodeClock.NodeCountersInTime | variants/host/SimHal.h:82-108 | From power-up, whatever firmware and engine do, busy time stays within the node's time, and the misfires of a fault left alone within one per period plus one. |
| RadioServer.AtomicWrite | bridge/radioserver.cpp:238-369 | With engine messages and pin changes interleaved in any way between its bytes, a non-reading transaction ends exactly as if all of those had come first and the whole command after. |
| RadioServer.AtomicRead | bridge/radioserver.cpp:238-369 | A reading transaction leaves radio, clock and every message as the interleaved events alone would, but for the two read counters and the eight bytes that report them; it leaves no transaction open, and the counters rise by exactly the bytes of a GetIrqStatus, the second by those clocked with a busy flag up. |
| RadioServer.ReadByte | bridge/radioserver.cpp:334-341 | Each byte it reads is the whole command's answer in the state at that byte, or, at a position answered apart, what the byte form gives there. |
| RadioServer.ServerIsRun | bridge/radioserver.cpp:238-369 | Every interleaving of the two sides is a run of the radio with time only forward, and the frames sent are exactly what that run's drains put on the wire. |
| RadioServer.ServerFromPowerUp | bridge/radioserver.cpp:262-276 | From power-up the engine gets the last frame of each slot, all of them if no slot had two, and the counters stay within simulated time. |
| RadioServer.EngineReadsAll | bridge/radioserver.cpp:138-142 | From power-up, whatever happens, the bytes the server writes read back as exactly the messages it sent. |
| RadioServer.TickShape | bridge/radioserver.cpp:262-281 | A tick to `at` ends at max(t, at), sends at most one frame per millisecond gone through and one more, then the statistics of its final state and one acknowledgement echoing `at`, and leaves no frame unsent. |
| RadioServer.TickLandsOn | bridge/radioserver.cpp:262-281 | A tick message lands on its four bytes read most significant first, or stays if past it, and ends with kinds 9 and 3. |
| RadioServer.EngineByNumber | bridge/radioserver.cpp:247-263 | Kinds 1, 4, 8 and a tick of the wrong length, by number: frame queued last, transmission finished into standby with flag 0, channel busy if and only if the byte is not zero, nothing. |
| RadioServer.UnknownLeaveNoTrace | bridge/radioserver.cpp:283-300 | Console input and unknown kinds change nothing, wherever they stand among the messages. |
| RadioServer.StaysInStep | bridge/radioserver.cpp:238-302 | The byte stream of any messages that fit drives the server as the known ones alone. |
| RadioServer.RadioServer.ServiceBridge | bridge/radioserver.cpp:238-302 | One engine message, every kind and every wrong length, takes the whole server to the specified state. |
| RadioServer.RadioServer.TickNow | bridge/radioserver.cpp:262-281 | The millisecond loop, the final tick, the statistics and the acknowledgement. |
| RadioServer.RadioServer.DrainTx | bridge/radioserver.cpp:195-199 | Sends the waiting frame once and marks it sent. |
| RadioServer.RadioServer.ServiceEmulator | bridge/radioserver.cpp:305-368 | One emulator message: new state, what the emulator is told, and that an unknown tag, and nothing else, ends the program. |
| RadioServer.RadioServer.ServeUntilUnknown | bridge/radioserver.cpp:493-513 | The main loop serves the messages of both sides in order up to the first unknown tag, and none after it. |
| Bridge.TickShape | bridge/main.cpp:266-346 | A tick to `at` runs the loop exactly max(0, at - t) + 1 times, ends at max(t, at), sends at most one frame for each of them, at most one console message, the statistics and one acknowledgement echoing `at`, in that order and nothing after, and leaves no frame and no console output unsent. |
| Bridge.TickLandsOn | bridge/main.cpp:271-297 | A tick message lands on its four bytes read most significant first, or stays if past it, runs the loop that often and once more, and ends with kinds 9 and 3. |
| Bridge.ClockOnTime | bridge/main.cpp:278-288 | Over any session in which the firmware does not set it, the real-time clock is its start value plus the whole seconds simulated. |
| Bridge.HandlerIsLastSet | variants/host/SimHal.h:50-51 | A handler is attached if and only if the last call about it attached it. |
| Bridge.HandlerRuns | variants/host/SimHal.h:91-97 | The handler runs once if attached with an enabled flag up, and not otherwise. |
| Bridge.ClockIsLastSet | bridge/main.cpp:280-288 | Set by the firmware, the real-time clock shows what it was last set to. |
| Bridge.SessionBecame | bridge/main.cpp:216-355 | Any session with any firmware is exactly the run of the hardware layer spelled out by `HalOps` from the calls of setup, loop and handler and the messages, and the frames sent are what the drains of that run put on the wire. |
| Bridge.NodeFromPowerUp | bridge/main.cpp:129-134 | For that run, from power-up: the engine gets the last frame the firmware committed in each slot, all of them if no slot had two; the chip is in step with the node and its counters within it. |
| Bridge.EngineReadsAllIff | bridge/main.cpp:88-120 | From power-up, whatever happens, the bytes the bridge writes read back as exactly the messages it sent if and only if no console flush exceeds 65535 bytes. |
| Console.ConsoleIsPrinted | bridge/main.cpp:103-120 | The console messages of a session are what the firmware prints, flush by flush: nothing lost, torn or sent twice. |
| Console.EngineReadsAllIffPrinted | bridge/main.cpp:88-120 | From power-up the bytes written read back as what was sent if and only if the firmware never prints more than 65535 bytes in its setup or in one tick. |
| Console.SetupPrintsTooMuch | bridge/main.cpp:116-120 | It is met: a setup that prints 65536 bytes breaks the stream before the first message of the engine. |
| Tandem.SameMessageIff | bridge/main.cpp:227-350 | Every message that does not move time does the same to the chip in both programs, whatever the firmware, if and only if it is not an empty busy report on a busy channel; the bridge closes on exactly the kinds it does not take, and there the server does nothing. |
| Tandem.EmptyBusyReport | bridge/radioserver.cpp:258-260 | The exception is met: after one busy report an empty one leaves two equal chips different. |
| Tandem.StaysInTandemIff | bridge/main.cpp:266-346 | With firmware that does nothing, ticks are no exception either: chip, time and messages sent, the last byte of the statistics aside, stay equal if and only if the message is not an empty busy report on a busy channel. |
| Tandem.IdleNodesInTandem | bridge/radioserver.cpp:262-281 | From power-up over any messages the bridge takes, empty busy reports aside, an idle native node and an idle emulated one are the same radio and tell the engine the same. |
| Bridge.ClosedStays | bridge/main.cpp:348-350 | Nothing after a message of unknown kind is acted on. |
| Bridge.NativeBridge.PerformCalls | variants/host/SimHal.h:43-73 | Whatever the firmware does through the platform, in order. |
| Bridge.NativeBridge.ServicePendingIrq | variants/host/SimHal.h:91-97 | The handler runs once if attached and the chip asks for it, and not otherwise. |
| Bridge.NativeBridge.PassNow | bridge/main.cpp:289-297 | Clock, interrupt, loop, drain: one pass at the present millisecond. |
| Bridge.NativeBridge.TickNow | bridge/main.cpp:266-346 | The stepping loop, the pass after it, console, statistics and acknowledgement. |
| Bridge.NativeBridge.Serve | bridge/main.cpp:227-350 | One engine message of any kind, and whether the bridge goes on. |
| Bridge.NativeBridge.Converse | bridge/main.cpp:216-355 | Setup, then messages up to the first unknown kind: the final state is the session's. |
| Bridge.NativeBridge.DrainTx | bridge/main.cpp:129-134 | Sends the waiting frame once and marks it sent. |
| Bridge.NativeBridge.FlushConsole | bridge/main.cpp:116-120 | Everything printed goes out as one message, and nothing if nothing was printed. |
| Wire.RoundTripIff | bridge/radioserver.cpp:138-142 | The reader recovers exactly the messages written and stops where they end if and only if every payload fits the length field. |
| Wire.FirstDecoded | bridge/main.cpp:220-225 | What is read for a message of any length, whatever follows it: an over-long one comes out cut to its length modulo 65536 with the rest left in the stream. |
| Wire.OnTheWire | bridge/main.cpp:88-98 | Kind, upper and lower byte of the length, payload, in this order. |
| Wire.Socket.ReadAll | bridge/radioserver.cpp:116-125 | Succeeds if and only if enough bytes are to come and none of the reads it makes fails, which is for the network to say, and then takes exactly those, in whatever pieces they arrive; if not, some proper part of them is gone. |
| Wire.Socket.WriteAll | bridge/radioserver.cpp:127-136 | Succeeds if and only if no write fails, and has then written all of it in whatever pieces; if not, some proper prefix. |
| Wire.Socket.WriteMsg | bridge/radioserver.cpp:138-142 | Succeeds if and only if no write fails, and has then written exactly the encoded message; if not, a proper prefix of it. |
| Wire.Socket.WriteMsgOnce | bridge/main.cpp:88-98 | The same with the header in a single write, where a header written in part is a failure too. |
| Wire.Socket.ReadMsg | bridge/main.cpp:220-225 | Succeeds if and only if a whole message is to come and no read fails, and then takes exactly that message off the stream. |
| Wire.Socket.WriteMsgs | bridge/radioserver.cpp:138-142 | Any messages by either writer: the whole encoded sequence, or a proper prefix of it. |
| Wire.Socket.ReadMsgs | bridge/main.cpp:220-225 | The message loop reads the first messages of the stream, and all of them if no read fails. |
| Wire.BrokenOff | bridge/main.cpp:220-225 | A stream that breaks off anywhere decodes to the first messages of the whole one and no others. |
| Wire.Exchange | bridge/radioserver.cpp:116-142 | The round trip over sockets that move bytes in any pieces and may fail at any time: messages that fit arrive in order from the first, and where all were sent and no read fails all arrive if and only if they fit. |
| Settings.LastSettingHolds | variants/host/VirtualSX1262.cpp:312-390 | Over any run, what the firmware set for frequency, power, modulation, packet, buffer bases or interrupt mask is what the chip still holds if no later command had that opcode. |
| Settings.RegisterIsLastWritten | variants/host/VirtualSX1262.cpp:327-374 | Over any run a register holds the last byte written to it, calibration counting as a write of the default gain, and its old value if none was. |
| Settings.ReadBack | variants/host/VirtualSX1262.cpp:376-384 | From power-up, any ReadRegister answers the byte last written at that address, or what the chip powers up with. |
| Stats.ServerRecord | bridge/radioserver.cpp:159-187 | The server's record is the common 36 bytes and then the front end's three-valued answer. |
| Stats.BridgeRecord | bridge/main.cpp:309-342 | The bridge's record is the same 36 bytes and then a zero, for every chip state. |
| Stats.RecordDecodes | bridge/main.cpp:309-342 | Either record gives back the counters modulo 2^32, every setting exactly but the coding rate, which is exact up to 255 and modulo 256 beyond, and both interrupt registers bit for bit. |
| Stats.ReachableRecordDecodes | variants/host/VirtualSX1262.cpp:202-226 | The same for every chip reachable from power-up, however it is clocked. |
| Stats.RunInRange | variants/host/VirtualSX1262.cpp:202-226 | Whatever the firmware programs, the settings stay within the fields of the record. |
| Stats.BandwidthsDistinct | variants/host/VirtualSX1262.cpp:204-219 | Distinct bandwidth codes stay distinct in the record. |
| Stats.PllExact | variants/host/VirtualSX1262.cpp:312-319 | The frequency is the exact floor of the PLL word times 15625/16384, monotone, and onto every whole number of hertz; the least word for it is a 32-bit one exactly up to 4095999999 Hz. |
| Bus.StatusByte | variants/host/VirtualSX1262.cpp:300-303 | Every reply, either way, begins with zero and 0x22. |
| Bus.PacketStatus | variants/host/VirtualSX1262.cpp:415-427 | After any run, GetPacketStatus of any length answers the strength, quality and strength last measured, as far as it reaches, either way. |
| Bus.PacketType | variants/host/VirtualSX1262.cpp:434 | GetPacketType answers one, and nothing after. |
| Bus.NothingElseAnswers | variants/host/VirtualSX1262.cpp:433-437 | No command but the seven that read answers more than the status byte. |
| Bus.IrqStatus | variants/host/VirtualSX1262.cpp:392-398 | GetIrqStatus answers the flags at the weights of the datasheet. |
| Bus.RegisterHas | variants/host/VirtualSX1262.cpp:386-407 | A mask of two bytes names exactly the flags whose bits its number has. |
| Bus.LineIsMaskedFlags | variants/host/VirtualSX1262.h:129 | The interrupt line is up if and only if a flag is up that the last SetDioIrqParams enabled. |
| Bus.LineDownUntilEnabled | variants/host/VirtualSX1262.h:189 | From power-up nothing raises the line until some flag is enabled. |
| Bus.PinsTold | bridge/radioserver.cpp:343-363 | The emulator is told one for the line up, zero for down and never busy; a level other than zero switches the front end in. |
| Bus.NewRecord | variants/host/VirtualSX1262.h:185-213 | The record of a new chip, byte for byte. |
| Bus.NewChip | variants/host/VirtualSX1262.cpp:61-75 | A new chip names its part "SX1261" at 0x0320. |
| Bus.FrontEndRecorded | bridge/radioserver.cpp:183-185 | The last byte of the record over any run: zero until the first SetTx, then two or one for the line up or down at the last. |
| Bus.ReportedAtTick | bridge/main.cpp:299-343 | What either program reports at the end of a tick is the record of the chip as it then stands, its last byte zero, one or two for the front end in the server and always zero in the bridge. |
| Bus.BandwidthTable | variants/host/VirtualSX1262.cpp:207-219 | The ten bandwidth codes in hertz; any other keeps the setting. |
| Bus.KeptByModulation | variants/host/VirtualSX1262.cpp:202-221 | An unmapped bandwidth code keeps the bandwidth, a coding rate of zero the rate. |
| Bus.TooShort | variants/host/VirtualSX1262.cpp:312-407 | A command too short for its parameters changes nothing at all. |
| Bus.Clears | variants/host/VirtualSX1262.cpp:400-407 | ClearIrqStatus takes down exactly the flags its two bytes name. |
| Airtime.PayloadsAgreeIff | variants/host/HostRadio.cpp:18-35 | The two payload symbol counts agree at every length if and only if the two low-data-rate decisions agree. |
| Airtime.ElevenAt250 | variants/host/HostRadio.cpp:25-30 | They do differ: at spreading factor 11 and 250 kHz a 60-byte packet has 78 payload symbols by the chip and 63 by the host. |
| Airtime.SixteenMs | variants/host/HostRadio.cpp:25-27 | The host optimises from a symbol of 16 ms on, itself included, and not below. |
| Airtime.AirtimesAgree | variants/host/VirtualSX1262.cpp:189-200 | With matching settings the chip's rounded figure is the host's truncated one, or one more exactly when half a millisecond or more was cut off. |
| Airtime.Figures | variants/host/HostRadio.cpp:18-35 | Two settings worked out to the millisecond by both formulas. |
| Airtime.AirtimeMonotone | variants/host/HostRadio.cpp:18-35 | A longer packet never takes less time by either formula. |
| Base64.DecodeEncode | variants/host/base64.hpp:38-66 | Decoding what was encoded gives the bytes back, the length is the promised one and the text is canonical. |
| Base64.EncodeDecodeIff | variants/host/base64.hpp:38-66 | Encoding what was decoded gives the text back if and only if it is canonical. |
| Base64.DecodeFits | variants/host/base64.hpp:34-36 | Decoding never yields more than the bound promises. |
| Base64.Alphabet | variants/host/base64.hpp:13-23 | The alphabet in its order. |
| Base64.Lengths | variants/host/base64.hpp:27-36 | The two lengths in threes and fours. |
| Base64.Foobar | variants/host/base64.hpp:38-66 | "foobar" and "Zm9vYmFy", both ways. |
| Base64.OneByte | variants/host/base64.hpp:42-49 | "f" is "Zg==", as in section 10 of RFC 4648. |
| Base64.TwoBytes | variants/host/base64.hpp:42-49 | "fo" is "Zm8=". |
| Base64.EncodeBase64 | variants/host/base64.hpp:38-53 | The loop writes the encoding and one uncounted NUL, and nothing after it. |
| Base64.DecodeBase64 | variants/host/base64.hpp:55-66 | The loop writes the decoding, at most the promised length, and nothing after it. |
| Bytes.RegisterRoundTrip | variants/host/VirtualSX1262.cpp:392-403 | A register written out as two bytes reads back as the same sixteen bits. |

## Left out

- Sockets, poll, argument parsing, tracing and messages to stderr: a socket is a byte sequence read and written in
  arbitrary pieces, and each step of a program is what it does with one message.
- MeshCore, RadioLib, `setup`, `loop` and the interrupt handler's own code: represented by arbitrary behaviours.
- RSSI and SNR before they are bytes, `packetScore` and float rounding generally: exact arithmetic is used instead.
- Frames or transmissions that run past the end of the 256-byte buffer: the source copies past the array there, which
  C++ leaves undefined. The model drops what does not fit.
- Frames.StatusThenReadIff: asks that the frame fit between the receive base and the end of the buffer, for that reason; so
  does its form by bytes.
- NodeFrames.FetchedIs: asks that the frames fit there too, as do the lemmas after it.
- Transmit.TransmitRoundTrip: asks the same of the transmit base.
- Transmit.TransmitInAnyOrder: asks the same.
- Spreading factors of 32 and more: the source's shift is undefined there; the model uses the power of two.
- Airtime.PayloadsAgreeIff: is about spreading factors 7 to 12; at 5 and 6 the host's formula uses other coefficients.
- Wrap-around of the 32-bit simulated clock, real-time clock and counters in memory: they are natural numbers, taken
  modulo 2^32 only where the record writes them.
- A radio server without an engine to connect to, which drains nothing; the model's server has one.
- Failed writes within a tick: `RadioServer` and `Bridge` collect what is sent as messages, and take every write to
  succeed. What a failed write leaves on the stream is in `Wire`.
- Console input and its queue, and `kOriginate`, which only prints a message: no effect on what is modelled.
- The guard against a nested interrupt handler: handlers are started from the tick loop only.
- `estAirtimeMs` for negative lengths; the NUL-terminated overload of `decode_base64`; lengths near 2^32 there.
- Readings of the chip's pins by native firmware, which change nothing.
- The file system, `RTClib`, `Wire`, sensors, board files, role files and the build.
