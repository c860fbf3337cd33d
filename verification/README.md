# CCD clock simulator, acquisition chain, pattern matcher and printf: a verified model

This project models four parts of the coded-aperture repository and proves what
they are for.

**The CCD clock simulator and its acquisition chain.** `clocksim.vhdl` is a stack
machine; `clocksim.c` is the recursive program it stands for. `Pins.dfy` says what
that program does to the pins, `ClockSimC.dfy` is the C program on its bit-masked
int, `ClockMachine.dfy` the stack machine and `ClockSim.dfy` the VHDL entity with
its four processes. The machine refines the program edge by edge, with exact step
counts and a bound on its stack. `Waveform.dfy` is the serial format,
`Acquisition.dfy` the receiver (`sclk_data_acq`, `data_bridge`), `Fifo.dfy` and
`WbFifo.dfy` the queue and its bus port. Words sent by the C program come out in
order, once each; `VhdlSender.dfy` shows what they make of the VHDL sender instead.
`CircBuffer.dfy` is the driver's circular buffer: sequentially as a class, and
shared with an interrupt, access by access, as a state machine. `IrqManager.dfy`
is the interrupt latch.

**The pattern matcher** of `regexp_h.vhdl`: `RegExp.dfy` gives the meaning of a
pattern, `RegTurn.dfy` one turn of the interpreter's loop for any pattern,
`RegMeaning.dfy` what follows from the meaning, `RegRefine.dfy` the proof that the turns
follow it, and `RegMatch.dfy` the program. `SimplePatterns.dfy` and `CapturedGroups.dfy`
say what it reports for simple patterns, in characters alone. `PatternFacts.dfy`, `GroupFacts.dfy`,
`ClassFacts.dfy` and `EscapeFacts.dfy` say what a reader gets, and where the comments
promise more.

**Numbers in and out** of `stdio_h.vhdl` and `stdlib_h.vhdl`, after ISO C99
(sections 7.19.6.1, 7.19.6.2, 7.20.1.2 and 7.20.1.4): `Numerals.dfy`,
`NumeralTexts.dfy`, `Standard.dfy`, `BitStrings.dfy`, `Stdio.dfy`, `Radix.dfy`, `Scanf.dfy`.

**The coded-aperture image** of `mask.vhdl`: `Mask.dfy`.

Conventions. A clocked process is a class whose `Clock` method reads old values and
assigns new ones; its `Valid` predicate says what the registers are after every run
since reset, as a function of a ghost record of the inputs. 1280, `addrdepth`,
`div`, the buffer size and the mask bits are parameters. Signals are two-valued.
Words and bytes are sequences of bits, bit 0 first; the C int is 32 bits wide.

Where the code does less than its comments say, the model follows the code: a later
READOUT is empty (`LaterPasses`); `wr_ack` and `data_count` are not always what their
comments say (`AckTruth`, `DataCount`); a read in two clocks running repeats a word
(`ExactlyOnceIffDisciplined`); the last alternative of a pattern may be misnumbered,
and a match reported as none (`NumberIsPosition`, `ZeroMeansNone`); a starred escape
of a special character does something else, or never ends (`EscapeTakesRuns`); a
bracket class that begins with a hyphen does not mean what the comments say, and
depends on the class read before it, and one may lose its closing hyphen
(`ListedAsPromised`, `HyphenNine`, `ClosingHyphen`); a starred group, and one in a
later alternative of a group, go wrong (`RepeatedGroupFirst`, `NestedGroupTried`);
`pf` is two's complement only for some integers (`CodedExactly`); atoi of blanks is
the leftmost integer, not 0, and blanks after a sign are skipped, which the standard
does not allow (`StandardValue`, `BlankText`, `SignThenBlank`); the VHDL sender is out
of step with the receiver, so that no word is ever received as shown
(`ReceivedAsShown`); 512 events can overflow the image (`SafeRun`).

## Model

| member | source | states |
|---|---|---|
| ClockMachine.FirstPass | wishbone_CCD_simulator/vhdl/clocksim.vhdl:74-214 | refinement: from reset the stack machine makes exactly the pin assignments of the recursive `frame(); readout();`, in order, and is back at FRAME with its counters cleared except `readout_rows` |
| ClockMachine.FirstCycleLength | wishbone_CCD_simulator/vhdl/clocksim.vhdl:96-212 | that pass takes 9n² + 46n + 2 edges of SCLK: 14,804,482 for n = 1280 |
| ClockMachine.LaterPasses | wishbone_CCD_simulator/vhdl/clocksim.vhdl:112-122 | `readout_rows` is never cleared, so for every k the k-th later pass is one frame alone, 24n + 2 edges long, for ever |
| ClockMachine.EveryEdgeFollows | wishbone_CCD_simulator/vhdl/clocksim.vhdl:74-214 | at every edge of the first pass what the pins have done is a prefix of what the C program does |
| ClockMachine.EveryEdgeForever | wishbone_CCD_simulator/vhdl/clocksim.vhdl:74-214 | at every edge of every run the pins have followed `frame(); readout();` and then `frame()` repeatedly |
| ClockMachine.ShapeReachable | wishbone_CCD_simulator/vhdl/clocksim.vhdl:75-82 | in every reachable state the stack is a prefix of one of three call chains, no transfer under ROW clocks pixels, and every counter is in its declared range |
| ClockMachine.StackBound | wishbone_CCD_simulator/vhdl/clocksim.vhdl:75-76 | such a stack has one to four entries, so `idx` stays in 0..3 |
| ClockMachine.ShapeKept | wishbone_CCD_simulator/vhdl/clocksim.vhdl:96-212 | one edge keeps that invariant |
| ClockMachine.Pushed | wishbone_CCD_simulator/vhdl/clocksim.vhdl:103-174 | each push made by a mode leads from one legal stack to another; PIXEL_MAYBE may push only outside ROW |
| ClockMachine.Popped | wishbone_CCD_simulator/vhdl/clocksim.vhdl:138-208 | each return leads from one legal stack to another |
| ClockMachine.PixelSteps | wishbone_CCD_simulator/vhdl/clocksim.vhdl:183-210 | PIXEL, entered at step 0, takes 8 edges, makes the two assignment groups of `pixel()` and returns |
| ClockMachine.PixelMaybeSteps | wishbone_CCD_simulator/vhdl/clocksim.vhdl:168-181 | PIXEL_MAYBE takes 10 edges and clocks one pixel if `ft`, 8 edges and none if not |
| ClockMachine.DownSteps | wishbone_CCD_simulator/vhdl/clocksim.vhdl:141-166 | DOWN takes 23 or 19 edges and does what `down(ft)` does, whatever the stack below it |
| ClockMachine.PixelTimes | wishbone_CCD_simulator/vhdl/clocksim.vhdl:183-210 | edge by edge, by pin number: a pixel's clocks are raised after its first edge and lowered after its sixth |
| ClockMachine.DownTimes | wishbone_CCD_simulator/vhdl/clocksim.vhdl:141-166 | the pins after each edge of a transfer with its pixels, by pin number, whatever the stack below it |
| ClockMachine.DownTimesAlone | wishbone_CCD_simulator/vhdl/clocksim.vhdl:141-166 | and after each edge of a transfer without: raised for nine edges, then lowered |
| ClockMachine.FrameTimes | wishbone_CCD_simulator/vhdl/clocksim.vhdl:98-110 | which pins are high after every edge k of the first frame, for every size n, by pin number and k alone |
| ClockMachine.FrameSteps | wishbone_CCD_simulator/vhdl/clocksim.vhdl:98-110 | FRAME takes 24n + 1 edges and does what `frame()` does |
| ClockMachine.RowSteps | wishbone_CCD_simulator/vhdl/clocksim.vhdl:124-139 | ROW takes 9n + 21 edges and does what `row()` does |
| ClockMachine.ReadoutSteps | wishbone_CCD_simulator/vhdl/clocksim.vhdl:112-122 | READOUT does the rows its counter has left, 9n + 22 edges each, and goes back to FRAME |
| ClockMachine.LogGrows | wishbone_CCD_simulator/vhdl/clocksim.vhdl:96-212 | the trace of assignments only grows |
| ClockSim.PhaseLock | wishbone_CCD_simulator/vhdl/clocksim.vhdl:42-71 | the strobe counter and the bit counter, clocked on opposite edges, add up to 7 modulo 8 while SCLK is low and to 0 while it is high, in every run |
| ClockSim.StrobeMarksBitZero | wishbone_CCD_simulator/vhdl/clocksim.vhdl:42-71 | STROBE is low exactly from the rise that presents bit 0 until the next rise |
| ClockSim.ClockSim.Clock | wishbone_CCD_simulator/vhdl/clocksim.vhdl:24-71 | one system clock keeps every register equal to its closed form in the number of clocks since reset, the stack machine having made one step per rise of SCLK |
| ClockSim.ClockSim.Reset | wishbone_CCD_simulator/vhdl/clocksim.vhdl:29-31 | the asynchronous reset puts every process at the start of a run, from any state |
| ClockSim.ClockSim.constructor | wishbone_CCD_simulator/vhdl/clocksim.vhdl:14-17 | at power-up the pins are low and `bit` is 0, while SCLK and STROBE are undefined: only a reset begins a run |
| ClockSim.ClockSim.ToggleSclk | wishbone_CCD_simulator/vhdl/clocksim.vhdl:33-38 | an edge of SCLK moves each process that waits for it, and no other |
| ClockSim.ClockSim.StepMachine | wishbone_CCD_simulator/vhdl/clocksim.vhdl:96-213 | the four-slot array, its index and the variables move as the list-shaped machine does; no access leaves the array |
| ClockSim.ClockSim.Outputs | wishbone_CCD_simulator/vhdl/clocksim.vhdl:19-22 | SCLK, A, B and STROBE at any time: the word the machine shows then, serialised, each line given in plain arithmetic on the number of system clocks since reset |
| ClockSim.ClockSim.FollowsProgram | wishbone_CCD_simulator/vhdl/clocksim.vhdl:73-214 | at any time since reset the logged words are a prefix of the C program's |
| ClockSim.Edge | wishbone_CCD_simulator/vhdl/clocksim.vhdl:42-71 | one more half period of SCLK, seen by each counter and by the stack machine |
| ClockSimC.Program.Step | wishbone_CCD_simulator/test/clocksim.c:25-38 | `step` prints the wave of the current word: both bytes, high bit first, STROBE low in the high half of bit 0 |
| ClockSimC.Program.Pixel | wishbone_CCD_simulator/test/clocksim.c:40-65 | `pixel` leaves the pins and the trace as the reference does; of the nine waves it prints the first is the word before it, the next four have the pins of the first group raised and those of the second lowered, by pin number, and the last four the reverse |
| ClockSimC.Program.PixelMaybe | wishbone_CCD_simulator/test/clocksim.c:67-73 | `pixel_maybe` clocks a pixel or prints the wave of the same word nine times |
| ClockSimC.Program.Down | wishbone_CCD_simulator/test/clocksim.c:76-90 | `down` makes its two groups of assignments around two optional pixels; the 18 waves it prints, by pin number |
| ClockSimC.DownPrints | wishbone_CCD_simulator/test/clocksim.c:76-90 | those 18 waves, with and without pixels, for any word before them |
| ClockSimC.Program.Frame | wishbone_CCD_simulator/test/clocksim.c:92-98 | `frame` is n transfers and a final assignment, with the words they send |
| ClockSimC.Program.Row | wishbone_CCD_simulator/test/clocksim.c:100-106 | `row` is a transfer without pixels and n pixels |
| ClockSimC.Program.Readout | wishbone_CCD_simulator/test/clocksim.c:108-113 | `readout` is n rows |
| ClockSimC.Program.PrintFrame | wishbone_CCD_simulator/test/clocksim.c:115-122 | `main` prints 1 + 288n lines: the idle line, and then line by line, for every line number, the four values by pin number and line number alone; they are a transmission the chain can receive |
| CBits.SetBit | wishbone_CCD_simulator/test/clocksim.c:20-21 | `high` and `low` on the C int set and clear one bit of the word and no other |
| CBits.Channels | wishbone_CCD_simulator/test/clocksim.c:30-31 | the two bits `step` extracts are those of channels A and B |
| Pins.PinByPin | wishbone_CCD_simulator/test/clocksim.c:43-60 | the groups of assignments, one pin at a time as both programs make them |
| Pins.PinNumbers | wishbone_CCD_simulator/test/clocksim.c:6-17 | the same by bit number, channel A in bits 0 to 7 and channel B in bits 8 to 15 |
| PinTrace.DownLog | wishbone_CCD_simulator/test/clocksim.c:76-90 | a transfer leaves two or six words in the trace, these |
| PinTrace.PixelLog | wishbone_CCD_simulator/test/clocksim.c:40-65 | a pixel leaves two |
| PinTrace.FirstPassLogged | wishbone_CCD_simulator/test/clocksim.c:92-113 | a frame leaves 6n + 1 words and a readout n(2n + 2) |
| Waveform.WordLinesAt | wishbone_CCD_simulator/test/clocksim.c:25-38 | the sixteen lines of a word, one by one: which bit, which half, and STROBE low in the last |
| Sends.FrameSendCount | wishbone_CCD_simulator/test/clocksim.c:92-98 | a frame sends 18n words |
| Sends.PixelSendsAre | wishbone_CCD_simulator/test/clocksim.c:40-65 | which nine words a pixel sends, by pin number |
| Sends.DownSendsAre | wishbone_CCD_simulator/test/clocksim.c:76-90 | which eighteen words a transfer sends, with and without pixels, by pin number |
| Sends.FrameSendsAre | wishbone_CCD_simulator/test/clocksim.c:92-98 | the pins high in each of the 18n words of a frame, by its position alone |
| Sends.ReadoutSendCount | wishbone_CCD_simulator/test/clocksim.c:100-113 | a row sends 18 + 9n words, and a readout n times as many |
| Queue.Conservation | wishbone_CCD_simulator/vhdl/fifo.vhdl:50-96 | over every run since reset the words taken are those read out followed by those queued, in order, and at most the capacity are queued |
| Queue.AckTruth | wishbone_CCD_simulator/vhdl/fifo.vhdl:5-5 | `wr_ack` says whether the word was taken, except exactly when a write is lost to a read of an empty queue, or refused while the acknowledge is still up |
| Queue.AckWrong | wishbone_CCD_simulator/vhdl/fifo.vhdl:50-96 | both happen: a queue filled without a pause acknowledges the word it refuses, and one read while empty the word it loses |
| Fifo.FifoSyn.Clock | wishbone_CCD_simulator/vhdl/fifo.vhdl:59-95 | the ring buffer refines a bounded queue of 2**addrdepth words: memory, counters and flags move as the queue does for every input |
| Fifo.FifoSyn.Dout | wishbone_CCD_simulator/vhdl/fifo.vhdl:98-99 | the output is the head of the queue, or zero |
| Fifo.FifoSyn.DataCount | wishbone_CCD_simulator/vhdl/fifo.vhdl:4-4 | the counter is the occupancy, but 0 when the queue is full |
| Fifo.FifoSyn.Reset | wishbone_CCD_simulator/vhdl/fifo.vhdl:52-58 | reset empties the queue |
| Fifo.Capacities | wishbone_CCD_simulator/vhdl/fifo.vhdl:30-48 | the memory has 2**addrdepth words, 1024 for an address of ten bits |
| Fifo.AfterRead | wishbone_CCD_simulator/vhdl/fifo.vhdl:67-76 | reading moves the window of the memory on by one slot and finds the queue empty exactly at its last word |
| Fifo.AfterWrite | wishbone_CCD_simulator/vhdl/fifo.vhdl:78-88 | writing makes the window one longer and finds it full exactly at the last free slot |
| Fifo.AfterBoth | wishbone_CCD_simulator/vhdl/fifo.vhdl:61-65 | reading and writing at once is right even when full, and leaves an empty queue empty |
| WbFifo.ExactlyOnceIffDisciplined | wishbone_CCD_simulator/vhdl/wb_fifo.vhdl:70-104 | the reads take each accepted word once, in order, if and only if every read finds the queue non-empty and no two come in clocks running |
| WbFifo.Delivery | wishbone_CCD_simulator/vhdl/wb_fifo.vhdl:70-104 | then the values read followed by the words not read are the words accepted, however writes interleave and although `rd_en` is a clock late |
| WbFifo.ReadTwice | wishbone_CCD_simulator/vhdl/wb_fifo.vhdl:70-104 | two reads in clocks running, the first of a queue that is not empty, return the same word |
| WbFifo.FirstWordTwice | wishbone_CCD_simulator/vhdl/wb_fifo.vhdl:70-104 | so do the first two reads after the first write since reset |
| WbFifo.ValueAtPosition | wishbone_CCD_simulator/vhdl/wb_fifo.vhdl:89-91 | in any run a read is answered with the accepted word at its position, or zero when there is none |
| WbFifo.ReadsKeepStep | wishbone_CCD_simulator/vhdl/wb_fifo.vhdl:70-104 | in a disciplined run the word of a pending read is still at the head when it is dropped |
| WbFifo.OfferedAccepted | wishbone_CCD_simulator/vhdl/wb_fifo.vhdl:52-68 | without overflow nothing offered is lost |
| WbFifo.SeenAreValues | wishbone_CCD_simulator/vhdl/wb_fifo.vhdl:84-91 | those values are what is on the data bus after each read |
| WbFifo.Unattended | wishbone_CCD_simulator/vhdl/wb_fifo.vhdl:52-68 | with no reads the queue keeps the first words offered, up to its capacity |
| WbFifo.WbFifo.Clock | wishbone_CCD_simulator/vhdl/wb_fifo.vhdl:70-102 | the registers are a function of all inputs since reset: delayed `rd_en` and the one-clock interrupt; a selected read puts the identity, the occupancy (0 when full), the head of the queue (or zero) or the error word on the bus, by the two low address bits, and anything else leaves the bus alone |
| WbFifo.BusAnswers | wishbone_CCD_simulator/vhdl/wb_fifo.vhdl:80-99 | those four answers after every run of inputs, and when `rd_en` is set |
| WbFifo.InterruptsWhenHalfFull | wishbone_CCD_simulator/vhdl/wb_fifo.vhdl:70-78 | a queue that is only written interrupts once, in the clock after it has become half full, for every capacity from 2 on |
| WbFifo.WbFifo.Half | wishbone_CCD_simulator/vhdl/wb_fifo.vhdl:50-50 | the top bit of the counter: at least half full, but not full |
| FrontEnd.Transmitted | wishbone_CCD_simulator/vhdl/sclk_data_acq.vhdl:23-40 | serialise then deserialise: whatever words `step` sends and however long each line is held, the queue is offered the initial zeros and then every word but the last, bytes exchanged |
| FrontEnd.ReceivedBits | wishbone_CCD_simulator/vhdl/data_bridge.vhdl:23-40 | what is received, bit by bit: zeros first, then bit (i + 8) mod 16 of the word sent before |
| FrontEnd.HoldsDoNotMatter | wishbone_CCD_simulator/vhdl/sclk_data_acq.vhdl:31-38 | what is captured does not depend on how many clocks a line is held |
| FrontEnd.WritesAreCaptures | wishbone_CCD_simulator/vhdl/data_bridge.vhdl:31-37 | each rise of STROBE gives one write, one clock later, of the word then in the registers |
| FrontEnd.WordCaptured | wishbone_CCD_simulator/vhdl/sclk_data_acq.vhdl:31-38 | the lines of a word shift it in whole, and its first offers the word before it |
| FrontEnd.WavesCaptured | wishbone_CCD_simulator/vhdl/data_bridge.vhdl:31-40 | a run of words is captured one by one, each when the next begins |
| FrontEnd.TransmissionCaptured | wishbone_CCD_simulator/test/clocksim.c:115-119 | the idle line makes the first capture the reset value of the registers |
| FrontEnd.SclkDataAcq.Clock | wishbone_CCD_simulator/vhdl/sclk_data_acq.vhdl:31-38 | one bit of each channel is shifted in at a rise of SCLK |
| FrontEnd.DataBridge.Clock | wishbone_CCD_simulator/vhdl/data_bridge.vhdl:31-38 | the write pulse lasts the one clock after a rise of STROBE |
| WbFifoChain.EndToEnd | wishbone_CCD_simulator/vhdl/wb_fifo_chain.vhdl:62-107 | for all words, holds and bus activity: with disciplined reads and no overflow, the values read and those still queued are the words received |
| WbFifoChain.EndToEndUnattended | wishbone_CCD_simulator/vhdl/wb_fifo_chain.vhdl:62-107 | with nobody reading, the queue holds the first words received, up to its capacity |
| WbFifoChain.FeedOffers | wishbone_CCD_simulator/vhdl/wb_fifo_chain.vhdl:80-98 | the queue's write port is driven by the front end's pulses and words |
| WbFifoChain.Chain.Clock | wishbone_CCD_simulator/vhdl/wb_fifo_chain.vhdl:72-107 | the three entities clocked together, each on the others' old signals, make one step of that composition |
| VhdlSender.Received | wishbone_CCD_simulator/vhdl/clocksim.vhdl:42-71 | what the acquisition chain receives from clocksim.vhdl itself, over any number of half periods, in closed form: bit 0 of each byte of the k-th word is the channel's top pin at rise 8k + 1, bit i the pin i - 1 at the i-th rise before that |
| VhdlSender.ReceivedHeld | wishbone_CCD_simulator/vhdl/sclk_data_acq.vhdl:31-38 | the same for any number of system clocks to each half period |
| VhdlSender.FrontAfter | wishbone_CCD_simulator/vhdl/sclk_data_acq.vhdl:23-40 | the shift registers after every half period of that sender |
| VhdlSender.HeldTwice | wishbone_CCD_simulator/vhdl/clocksim.vhdl:98-174 | the vertical clocks never move at two rises running |
| VhdlSender.KnownChannel | wishbone_CCD_simulator/vhdl/clocksim.vhdl:147-161 | channel A is at every time in one of four states, and not idle after the second rise |
| VhdlSender.ReceivedAsShown | wishbone_CCD_simulator/vhdl/clocksim.vhdl:42-71 | no word received from it is a word it shows at that time or any other, for any size but 0: STROBE rises with the SCLK that shifts the next bit, and the pins do not move fast enough to make up for it |
| VhdlSender.FirstCapture | wishbone_CCD_simulator/vhdl/clocksim.vhdl:42-71 | the first word received, at the ninth rise: while the channel shows the raised clocks 10100000, 01010000 is received |
| SharedBuffer.Always | wishbone_CCD_simulator/modules/sxi_sim_driver.c:80-151 | every interleaving of the interrupt's accesses with the reader's, from an empty buffer, keeps the invariant |
| SharedBuffer.InvariantKept | wishbone_CCD_simulator/modules/sxi_sim_driver.c:80-151 | one access of either side keeps it: delivered and still buffered words are the accepted ones, room once found stays, a chunk once counted stays copyable |
| SharedBuffer.Conserved | wishbone_CCD_simulator/modules/sxi_sim_driver.c:100-151 | outside a copy the words delivered followed by those buffered are the words accepted, in order, and calls of `cb_put` = accepted + `overflow` |
| SharedBuffer.PutAccepted | wishbone_CCD_simulator/modules/sxi_sim_driver.c:100-108 | a put that finds a free slot adds its word and loses nothing |
| SharedBuffer.PutRefused | wishbone_CCD_simulator/modules/sxi_sim_driver.c:102-105 | a put is refused and counted if and only if the buffer is full |
| SharedBuffer.OverflowCounts | wishbone_CCD_simulator/modules/sxi_sim_driver.c:100-108 | over every run `overflow` is the number of puts that met a full buffer, so 0 if none did |
| SharedBuffer.ReadBegins | wishbone_CCD_simulator/modules/sxi_sim_driver.c:125-133 | a call is let in exactly with an even count and no overflow, and stops waiting exactly when there is a word |
| SharedBuffer.ReadGoesOn | wishbone_CCD_simulator/modules/sxi_sim_driver.c:135-138 | each round takes the lesser of what is wanted and what is contiguous, or ends the call |
| SharedBuffer.ReadCopies | wishbone_CCD_simulator/modules/sxi_sim_driver.c:139-139 | each word copied is the next one buffered |
| SharedBuffer.ReadDrops | wishbone_CCD_simulator/modules/sxi_sim_driver.c:143-145 | the words copied, and no others, leave the buffer |
| SharedBuffer.ChunkUntouched | wishbone_CCD_simulator/modules/sxi_sim_driver.c:106-107 | no access of the interrupt changes a slot of the chunk being copied, nor `tail` |
| SharedBuffer.OneCall | wishbone_CCD_simulator/modules/sxi_sim_driver.c:125-150 | one call of `sxi_read`, however the interrupt comes between its accesses, delivers all it was asked for, or at least one word and then finds the buffer empty; or nothing if a signal ends its wait |
| SharedBuffer.AccessesBounded | wishbone_CCD_simulator/modules/sxi_sim_driver.c:125-147 | however the interrupt comes between them, a call makes at most three accesses of the buffer for each word wanted, and two more |
| SharedBuffer.OverflowSticks | wishbone_CCD_simulator/modules/sxi_sim_driver.c:126-126 | once a word has been lost every later `sxi_read` is turned away |
| CircBuffer.PutAppends | wishbone_CCD_simulator/modules/sxi_sim_driver.c:100-108 | a put appends the word, or counts it if there is no room |
| CircBuffer.PublishAppends | wishbone_CCD_simulator/modules/sxi_sim_driver.c:106-107 | the word in the head slot joins the buffer when head moves on |
| CircBuffer.StoreKeeps | wishbone_CCD_simulator/modules/sxi_sim_driver.c:106-106 | storing in the head slot changes no buffered word |
| CircBuffer.DropRemoves | wishbone_CCD_simulator/modules/sxi_sim_driver.c:95-98 | a drop takes words off the front, across the wrap point |
| CircBuffer.CopyIsContents | wishbone_CCD_simulator/modules/sxi_sim_driver.c:85-93 | the words up to the end of the array are the first of the buffer |
| CircBuffer.Space | wishbone_CCD_simulator/modules/sxi_sim_driver.c:110-113 | room and occupancy add up to one less than the size |
| CircBuffer.CountToEnd | wishbone_CCD_simulator/modules/sxi_sim_driver.c:85-88 | the contiguous count is 0 only for an empty buffer, and never leaves the array |
| CircBuffer.ToEnd | wishbone_CCD_simulator/modules/sxi_sim_driver.c:85-88 | it is the lesser of the occupancy and the room to the end of the array |
| CircBuffer.ContentsAt | wishbone_CCD_simulator/modules/sxi_sim_driver.c:90-93 | the buffered words are those from `tail` on, round the array, up to `head` |
| CircBuffer.MaskIsRemainder | wishbone_CCD_simulator/modules/sxi_sim_driver.c:97-97 | masking with CB_SIZE-1 is the remainder by 1024 on 32 bits |
| SxiDriver.SxiCb.Read | wishbone_CCD_simulator/modules/sxi_sim_driver.c:119-151 | every outcome of `sxi_read`: -22 for an odd count, -32 after an overflow, -512 with nothing to read, or the first min(count/2, k) words in order |
| SxiDriver.SxiCb.Copy | wishbone_CCD_simulator/modules/sxi_sim_driver.c:135-147 | its loop ends because the count falls, and delivers across the wrap point |
| SxiDriver.SxiCb.Put | wishbone_CCD_simulator/modules/sxi_sim_driver.c:100-108 | in place: append, or count the loss |
| SxiDriver.SxiCb.TakeChunk | wishbone_CCD_simulator/modules/sxi_sim_driver.c:139-144 | one round of it: the words copied, then those left, are the words there were |
| SxiDriver.SxiCb.Drop | wishbone_CCD_simulator/modules/sxi_sim_driver.c:95-98 | in place: take words off the front |
| SxiDriver.SxiCb.Available | wishbone_CCD_simulator/modules/sxi_sim_driver.c:85-88 | in place: the contiguous count |
| SxiDriver.SxiCb.Room | wishbone_CCD_simulator/modules/sxi_sim_driver.c:110-113 | in place: the free slots |
| SxiDriver.SxiCb.Init | wishbone_CCD_simulator/modules/sxi_sim_driver.c:80-83 | an empty buffer, no overflow |
| SxiDriver.SxiCb.Drain | wishbone_CCD_simulator/modules/sxi_sim_driver.c:225-226 | the interrupt keeps the words that fit, in order, and counts the rest |
| RegTurn.TurnsAdd | c_vhdl/regexp_h.vhdl:120-337 | turns of the loop, for every pattern and subject, groups included, compose; a run that has ended or stopped stays so |
| RegTurn.ReportsOnce | c_vhdl/regexp_h.vhdl:340-340 | a run has one outcome |
| RegTurn.CycleNeverEnds | c_vhdl/regexp_h.vhdl:120-337 | a run that comes back to a configuration never ends |
| RegTurn.FaultNeverEnds | c_vhdl/regexp_h.vhdl:120-337 | a run that stops the simulation reports nothing |
| RegMatch.RegMatch | c_vhdl/regexp_h.vhdl:76-345 | for every pattern and subject on which the run ends the program reports its outcome; on a well-formed pattern, that is the first alternative that matches possessively, where it ends, and the texts captured, or 0 and the start |
| RegMatch.Interpret | c_vhdl/regexp_h.vhdl:120-337 | the program loop, with its four stacks in place, does what the turns do |
| RegMatch.ReadClass | c_vhdl/regexp_h.vhdl:162-221 | the bit table built for a bracket class holds exactly the characters the class lists, or all others, whatever was read before it |
| RegMatch.ReadElement | c_vhdl/regexp_h.vhdl:165-221 | one element of a class: escape, range, literal hyphen or bracket |
| RegMatch.ReadAtom | c_vhdl/regexp_h.vhdl:291-312 | the table of an atom and where its repetition starts again |
| RegMatch.TryAtom | c_vhdl/regexp_h.vhdl:316-336 | an atom takes one character of its class, never NUL, or fails |
| RegMatch.TakeAtom | c_vhdl/regexp_h.vhdl:291-336 | reading and trying an atom is one turn |
| RegMatch.TakeMark | c_vhdl/regexp_h.vhdl:138-158 | anchors and repetitions |
| RegMatch.TakeGroup | c_vhdl/regexp_h.vhdl:224-289 | parentheses and bars, on the stacks, and the texts they capture |
| RegMatch.CopyOut | c_vhdl/regexp_h.vhdl:231-231 | a captured text is copied up to a NUL, and 79 characters of it at most |
| RegMatch.TakeItem | c_vhdl/regexp_h.vhdl:137-314 | whatever stands next in the pattern, one turn |
| RegRefine.ReportsMeaning | c_vhdl/regexp_h.vhdl:76-340 | refinement: on every well-formed pattern, with groups, and every subject the run ends and reports what the pattern means |
| SimplePatterns.AtLineEnd | c_vhdl/regexp_h.vhdl:141-143 | `c$` takes a character if and only if it is c and the subject, or its text up to a NUL, ends there |
| SimplePatterns.UsedUp | c_vhdl/regexp_h.vhdl:138-143 | `^$&#124;c`, as the patterns of stdio_h.vhdl begin, takes alternative 1 if and only if the subject is used up |
| SimplePatterns.AtLineStart | c_vhdl/regexp_h.vhdl:138-139 | `^c` is `c`, and `c^` never matches |
| SimplePatterns.OneCharacter | c_vhdl/regexp_h.vhdl:310-335 | `c` takes that character and no other |
| SimplePatterns.EscapedCharacter | c_vhdl/regexp_h.vhdl:291-304 | so does `\c`, for every character |
| SimplePatterns.AnyCharacter | c_vhdl/regexp_h.vhdl:306-308 | `.` takes any character but NUL |
| SimplePatterns.BraceLast | c_vhdl/regexp_h.vhdl:258-259 | a brace means nothing |
| SimplePatterns.OptionThen | c_vhdl/regexp_h.vhdl:152-155 | `c?d` takes c if it is there, and then d or nothing at all |
| SimplePatterns.StarRun | c_vhdl/regexp_h.vhdl:145-150 | `c*` takes the longest run of c |
| SimplePatterns.StarThenSame | c_vhdl/regexp_h.vhdl:145-150 | and gives nothing back: `c*c` never matches |
| SimplePatterns.RangeClass | c_vhdl/regexp_h.vhdl:207-217 | `[a-b]` takes the characters from a to b, and a itself |
| SimplePatterns.NegatedRangeClass | c_vhdl/regexp_h.vhdl:196-198 | `[^a-b]` takes all others but NUL |
| SimplePatterns.EscapeClass | c_vhdl/regexp_h.vhdl:181-194 | which character each escape in a class stands for, by code |
| SimplePatterns.BracketClass | c_vhdl/regexp_h.vhdl:200-205 | a bracket listed first is an ordinary character |
| SimplePatterns.EitherCharacterNul | c_vhdl/regexp_h.vhdl:260-289 | two alternatives with a closing NUL: which matches, and its number |
| SimplePatterns.RestCaptured | c_vhdl/regexp_h.vhdl:229-256 | `(.*)` captures the subject up to its first NUL, but at most 79 characters |
| SimplePatterns.EitherCaptured | c_vhdl/regexp_h.vhdl:225-256 | `(c&#124;d)` captures whichever of the two is there |
| CapturedGroups.GroupsCaptured | c_vhdl/regexp_h.vhdl:225-239 | any number of groups one after the other: the first four capture, each into its own text, and the others do not |
| CapturedGroups.CountedAnew | c_vhdl/regexp_h.vhdl:281-283 | groups are counted anew in each alternative of the pattern |
| CapturedGroups.OptionalGroup | c_vhdl/regexp_h.vhdl:251-256 | `(c)?d` matches without c |
| CapturedGroups.NestedCaptured | c_vhdl/regexp_h.vhdl:225-256 | up to 13 nested groups match, and the outer four capture |
| CapturedGroups.NestingLimit | c_vhdl/regexp_h.vhdl:225-227 | a pattern of nested groups ends if and only if there are at most 13, whatever the subject: the stacks have 15 places |
| RegRefine.RunTop | c_vhdl/regexp_h.vhdl:260-289 | alternatives are tried in order, each from the start, until one matches |
| RegRefine.RunItems | c_vhdl/regexp_h.vhdl:120-337 | whatever number of turns an alternative takes, it ends where matching its items ends, with what they capture |
| RegRefine.RunGroup | c_vhdl/regexp_h.vhdl:224-289 | a group takes the first of its alternatives that matches, captures its text, and skips the rest; or fails, which an option takes back |
| RegRefine.SkipGroup | c_vhdl/regexp_h.vhdl:249-254 | a group met while nothing is matched is passed over, and one of which an alternative has matched is left after it |
| RegRefine.RunStar | c_vhdl/regexp_h.vhdl:145-150 | a starred atom jumps back after every hit and goes on after a miss: the longest run, in finitely many turns |
| RegRefine.RestartOk | c_vhdl/regexp_h.vhdl:145-146 | after a hit, the position `*` jumps back to stands for the repeated atom, a class being read again after itself |
| RegRefine.RunAtom | c_vhdl/regexp_h.vhdl:152-158 | an atom hits or fails, and an option undoes the failure |
| RegRefine.CopiedText | c_vhdl/regexp_h.vhdl:231-231 | the text captured is the text matched, cut at 79 characters |
| Matching.MatchCons | c_vhdl/regexp_h.vhdl:120-337 | items match one after the other, each keeping what it takes |
| Matching.FirstMatchIsFirst | c_vhdl/regexp_h.vhdl:34-35 | the alternative reported matches and none before it does, and the texts captured are those of all that were tried |
| Matching.StarTakesAll | c_vhdl/regexp_h.vhdl:145-150 | possession: `*` takes the longest run and gives nothing back |
| Matching.GroupPossesses | c_vhdl/regexp_h.vhdl:274-282 | so does a group: nothing after it makes it try another alternative |
| Matching.AnyStarThenAtom | c_vhdl/regexp_h.vhdl:306-308 | `.*` followed by an atom never matches |
| Matching.MatchSpan | c_vhdl/regexp_h.vhdl:35-40 | a match goes forward, stays in the subject and passes no NUL |
| GroupFacts.FieldsTaken | c_vhdl/stdio_h.vhdl:736-738 | the pattern with which `sbufprintf` takes a conversion apart captures, for every format, the longest run of flags, of digits, and of digits after a full stop |
| GroupFacts.RepeatedGroupFirst | c_vhdl/regexp_h.vhdl:145-146 | a starred group at the start of a pattern jumps to before the pattern after a match, and the simulation stops |
| GroupFacts.NestedGroupTried | c_vhdl/regexp_h.vhdl:249-250 | a group inside a later alternative of a group is tried although an earlier one has matched |
| PatternFacts.NumberIsPosition | c_vhdl/regexp_h.vhdl:282-340 | the number reported is the alternative's position, but min(position, bars) in a pattern without a closing NUL |
| PatternFacts.NumberAlwaysRight | c_vhdl/regexp_h.vhdl:222-222 | the number is right for every subject if and only if the pattern has a closing NUL or its last alternative is never the one that matches |
| PatternFacts.ZeroMeansNone | c_vhdl/regexp_h.vhdl:34-34 | over all subjects 0 means that nothing matched if and only if the pattern has a closing NUL or a bar, or never matches |
| PatternFacts.NoBarReportsZero | c_vhdl/regexp_h.vhdl:34-34 | `a` on "a" matches and reports 0 |
| PatternFacts.LastReportsOneLess | c_vhdl/regexp_h.vhdl:282-282 | the second of the alternatives `a` and `b`, which matches "b", is reported as 1 |
| ClassFacts.HyphenPromised | c_vhdl/regexp_h.vhdl:210-211 | the class as the comments describe it lists a hyphen that is first or last in it |
| ClassFacts.ListedAsPromised | c_vhdl/regexp_h.vhdl:203-217 | a class lists, range by range, what the comments promise if and only if it does not begin with a hyphen followed by something other than a closing bracket, and its closing hyphen does not end a range that starts above it |
| ClassFacts.ClosingDecides | c_vhdl/regexp_h.vhdl:213-217 | without such a beginning, a class matches the promised characters if and only if its closing hyphen is not lost, or it lists one elsewhere |
| ClassFacts.OpeningDecides | c_vhdl/regexp_h.vhdl:213-217 | the first two characters of a class decide the rest: it matches the promised characters, however it goes on short of losing its closing hyphen, if and only if they are not such a beginning |
| ClassFacts.HyphenNine | c_vhdl/regexp_h.vhdl:210-217 | `[-9]`, an example of the comments, takes a 0 |
| ClassFacts.NotHyphenNine | c_vhdl/regexp_h.vhdl:210-217 | `[^-9]` takes the hyphen it was to leave out |
| ClassFacts.HyphenNineStarred | c_vhdl/regexp_h.vhdl:183-217 | `[-9]*` means one class in its first turn and another in the next: it takes one of two zeros |
| ClassFacts.ClosingHyphen | c_vhdl/regexp_h.vhdl:210-217 | `[a--]` does not take the hyphen before its closing bracket |
| EscapeFacts.EscapeTakesRuns | c_vhdl/regexp_h.vhdl:291-304 | a starred escape ends and takes the longest run of its character, on all subjects, if and only if that is not a bar or one of `^$*?[(){}\.` |
| EscapeFacts.EscapedStop | c_vhdl/regexp_h.vhdl:291-308 | `\.*` takes `.a` whole |
| EscapeFacts.EscapeNeverEnds | c_vhdl/regexp_h.vhdl:145-146 | `\**`, `\?*`, `\{*`, `\}*` and `\$*` come back to the same configuration and never end on the character itself |
| EscapeFacts.EscapeLost | c_vhdl/regexp_h.vhdl:291-304 | `\^*`, `\[*` and `\\*` lose the character they have matched |
| EscapeFacts.EscapedBar | c_vhdl/regexp_h.vhdl:260-282 | a starred escaped bar ends at the bar it goes back to, after one of two bars |
| EscapeFacts.EscapedGroup | c_vhdl/regexp_h.vhdl:145-146 | `\(*` and `\)*` use stack entries that are not set or not there, and the simulation stops |
| EscapeFacts.NothingRepeated | c_vhdl/regexp_h.vhdl:145-146 | a pattern that begins with `*` or `^*` never ends, on any subject and whatever follows |
| EscapeFacts.RepeatedAgain | c_vhdl/regexp_h.vhdl:145-158 | `a**` and `a?*` never end, on any subject, for any character that stands for itself |
| EscapeFacts.BarRepeated | c_vhdl/regexp_h.vhdl:145-146 | two alternatives, `a` and `*`, end if and only if the first matches: the star jumps back into it |
| Stdlib.Strtoul | c_vhdl/stdlib_h.vhdl:49-99 | blanks, the prefix of the base, then the longest run of digits; `endptr` is after it, or at the start if there is none |
| NumeralTexts.ReadsOctal | c_vhdl/stdlib_h.vhdl:64-74 | in base 0, `0` and octal digits have their octal value, in character codes, after any blanks and before anything that is not a letter or digit |
| NumeralTexts.ReadsHex | c_vhdl/stdlib_h.vhdl:69-83 | in base 0 or 16, `0x` or `0X` and hexadecimal digits of either case have their value |
| NumeralTexts.ReadsPlain | c_vhdl/stdlib_h.vhdl:85-92 | digits without a prefix have their value in any base from 2 to 36, and the decimal one in base 0 |
| NumeralTexts.ReadsSigned | c_vhdl/stdlib_h.vhdl:108-126 | and with a sign, for strtol |
| Stdlib.Strtol | c_vhdl/stdlib_h.vhdl:108-129 | the same with a sign, and where `endptr` ends up in every case; a text of blanks leaves the result at the leftmost integer |
| Standard.StandardValue | c_vhdl/stdlib_h.vhdl:108-129 | strtol, in any base, gives the value section 7.20.1.4 of ISO C99 asks for if and only if the text is not all blanks and no number other than 0 follows blanks that follow the sign |
| Standard.BlankText | c_vhdl/stdlib_h.vhdl:114-116 | atoi of blanks, or of nothing, is the leftmost integer where 0 is asked for |
| Standard.SignThenBlank | c_vhdl/stdlib_h.vhdl:119-125 | atoi of "- 5" is -5 where 0 is asked for |
| Stdlib.Atoi | c_vhdl/stdlib_h.vhdl:138-142 | the signed decimal number at the start of the text |
| Stdlib.ReadPadded | c_vhdl/stdlib_h.vhdl:108-142 | atoi of any padding around a signed numeral is its value |
| Numerals.NumeralValue | c_vhdl/stdio_h.vhdl:809-812 | a numeral has the value it was made from, in every base up to 16 |
| NumeralTexts.NumeralText | c_vhdl/stdio_h.vhdl:809-812 | the numeral by character codes: lower-case digits, no needless zero in front, and the value by Horner's rule |
| Numerals.NumeralUnique | c_vhdl/stdio_h.vhdl:757-779 | a digit string without needless zeros is the numeral of its value |
| Printf.PrintDecimal | c_vhdl/stdio_h.vhdl:792-849 | the text of `%d`, `%i` and `%u` for every bit string whose magnitude is a VHDL integer, every flag and every width; it has a minus if and only if the number is negative, and a plus if and only if it is not and one is asked for |
| Printf.SignsPrinted | c_vhdl/stdio_h.vhdl:817-821 | the signs of that text: which, exactly when, and only blanks before either |
| Printf.LooksSigned | c_vhdl/stdio_h.vhdl:814-848 | with a sign: blanks before it, zeros inside it, or blanks after it, by flags, to the width |
| Printf.LooksSpaced | c_vhdl/stdio_h.vhdl:819-822 | with the blank flag alone: a blank in front of the digits, or a zero if zeros are asked for |
| Printf.LooksPlain | c_vhdl/stdio_h.vhdl:814-848 | with no flag for the sign: the digits and their padding |
| Printf.DecimalRoundTrip | c_vhdl/stdio_h.vhdl:792-849 | that text is at least as wide as asked and atoi of it is the number: no pad zero stands before a sign |
| Printf.PrintAndRead | c_vhdl/stdio_h.vhdl:792-849 | the two programs together: what `%d` prints for a bit string atoi reads back as its number |
| Printf.ReverseLine | c_vhdl/stdio_h.vhdl:833-833 | the in-place exchange of ends reverses the line |
| Printf.ReversedDigits | c_vhdl/stdio_h.vhdl:809-812 | repeated division gives the numeral backwards |
| Printf.SignAndZeros | c_vhdl/stdio_h.vhdl:814-822 | pad zeros, the sign and the late zero end up as sign, zeros, digits |
| Printf.PutField | c_vhdl/stdio_h.vhdl:840-848 | blanks before or after make up the width |
| BitStrings.Magnitude | c_vhdl/stdio_h.vhdl:793-807 | the magnitude and sign of a two's complement text, with no intermediate result outside the integer range |
| BitStrings.RunningGrows | c_vhdl/stdio_h.vhdl:794-806 | the running value never falls |
| BitStrings.CleanFirst | c_vhdl/stdio_h.vhdl:331-343 | what each character of a bit string stands for, by its code |
| BitStrings.Sf | c_vhdl/stdio_h.vhdl:327-346 | `sf` returns the magnitude |
| BitStrings.Pf | c_vhdl/stdio_h.vhdl:306-325 | `pf` yields bit length plus one bits of value x, or x - 1 + lowest set bit of &#124;x&#124; when x is negative |
| BitStrings.CodedExactly | c_vhdl/stdio_h.vhdl:314-321 | that value is x if and only if x is non-negative or odd |
| BitStrings.CodedEven | c_vhdl/stdio_h.vhdl:314-321 | for an odd number times 2**k, negated, it is off by 2**k - 1 |
| BitStrings.BitLengthIs | c_vhdl/stdio_h.vhdl:312-312 | the bit length is the least number of bits that holds the magnitude |
| BitStrings.SfOfPf | c_vhdl/stdio_h.vhdl:327-346 | `sf` gets &#124;x&#124; back from `pf` for those x and no others |
| RadixPrint.PrintRadix | c_vhdl/stdio_h.vhdl:755-849 | `%x` and `%o` print the shortest numeral of the unsigned value of a bit string of any length, padded |
| Printf.LooksUnsigned | c_vhdl/stdio_h.vhdl:781-784 | that padding: blanks before, zeros before or blanks after, by flags, to the width |
| RadixPrint.Span | c_vhdl/stdio_h.vhdl:757-760 | leading zeros and what follows a NUL do not count |
| RadixPrint.Gather | c_vhdl/stdio_h.vhdl:761-775 | bits taken from the low end in threes or fours make the digits |
| RadixPrint.Complete | c_vhdl/stdio_h.vhdl:776-779 | with the residue the digits are the numeral, without a needless zero |
| Scanf.Scan | c_vhdl/stdio_h.vhdl:1065-1110 | blanks, a sign at most, then digits up to the width: the bits written have the value read |
| Scanf.ScansText | c_vhdl/stdio_h.vhdl:1065-1101 | by character codes: blanks are passed over, and a sign and the digits within the width are taken, with their value |
| Scanf.TakeDigits | c_vhdl/stdio_h.vhdl:1074-1101 | the digit loop takes the longest run in its window |
| Scanf.HexTable | c_vhdl/stdio_h.vhdl:271-274 | the table holds the bits of its indices |
| Scanf.AppendDigit | c_vhdl/stdio_h.vhdl:1093-1097 | appending a digit's bits multiplies by the base and adds the digit |
| Scanf.RadixRoundTrip | c_vhdl/stdio_h.vhdl:829-844 | scanning what `%x` or `%o` printed gives the unsigned value back, for bit strings of any length |
| Scanf.PrintAndScan | c_vhdl/stdio_h.vhdl:1071-1101 | the two programs together: scanning what `%x` or `%o` printed for a bit string writes bits of the same value |
| Scanf.DecimalTextTaken | c_vhdl/stdio_h.vhdl:1074-1101 | scanning what `%d` printed reads the number back |
| Scanf.DecimalRoundTrip | c_vhdl/stdio_h.vhdl:1103-1109 | but the bits stored for it have its value if and only if it is non-negative or odd |
| IrqManager.PendingStep | wishbone_CCD_simulator/vhdl/irq_mngr.vhdl:65-72 | the latch equation is equivalent to: a line is pending if it rose unmasked at some clock and has not been acknowledged at that clock or later |
| IrqManager.RisesWhen | wishbone_CCD_simulator/vhdl/irq_mngr.vhdl:56-61 | when a line rises, and when it is acknowledged, in terms of the lines and the bus alone |
| IrqManager.MaskedWhen | wishbone_CCD_simulator/vhdl/irq_mngr.vhdl:104-108 | a line is unmasked if and only if the last word written to register 0 has its bit |
| IrqManager.IrqManager.Clock | wishbone_CCD_simulator/vhdl/irq_mngr.vhdl:53-113 | after every run since reset each pending bit is that statement about the inputs, through both synchroniser stages and the registered mask and acknowledge |
| IrqManager.IrqManager.Update | wishbone_CCD_simulator/vhdl/irq_mngr.vhdl:53-113 | three of the processes, synchroniser, latch and register update, move together, each on the old signals; acknowledgement and mask come from the bus |
| IrqManager.IrqManager.Irq | wishbone_CCD_simulator/vhdl/irq_mngr.vhdl:115-117 | the request line is at its active level exactly while some line is pending and the reset is off |
| IrqManager.PendingPast | wishbone_CCD_simulator/vhdl/irq_mngr.vhdl:65-72 | later inputs do not change what was pending |
| MaskImage.Mask.Clock | mask/mask.vhdl:36-72 | after every run the image holds, for each cell, 5 times the hits less the number of events finished since reset |
| MaskImage.EventScores | mask/mask.vhdl:53-66 | an event adds 4 to the cells from which it sees an open mask bit and takes 1 from the others, from 0 on |
| MaskImage.Mask.AddEvent | mask/mask.vhdl:57-66 | one pass in place adds 4 or takes 1 from every cell |
| MaskImage.OrderIrrelevant | mask/mask.vhdl:36-72 | the image does not depend on the order of the events |
| MaskImage.RangeKept | mask/common_decs.vhdl:4-4 | up to 511 events keep every cell in -2047..2047 |
| MaskImage.SafeRun | mask/common_decs.vhdl:4-4 | 511 is exact, for every mask with an open bit: a count of events is safe for every choice of events if and only if it is at most that |

## Left out

- RegRefine.ReportsMeaning: a meaning is given to patterns without starred groups, which jump back to before their parenthesis (`RepeatedGroupFirst`); without a group inside a later alternative of a group (`NestedGroupTried`); without repetition of something that is not an atom (`NothingRepeated`, `RepeatedAgain`, `BarRepeated`); and without starred escapes of special characters (`EscapeTakesRuns`). Groups are nested 13 deep at most, the room on the stacks. The subject index starts at 1 or later, an index into the subject. The turns of the loop are modelled for all of these.
- ClassFacts.OpeningDecides: later characters of one class may list by accident what its leading hyphen was to (`[-00-]` after another class), so the condition on the characters matched is over all ways the class may go on; `ListedAsPromised` and `ClosingDecides` are on the class itself.
- RegMatch.RegMatch: copying the captured texts on into the caller's four strings, which may be shorter than 80 characters.
- Stdlib.Strtoul: numbers are unbounded; a value beyond the VHDL integer range stops the simulation there. `strtol` and `atoi` likewise.
- Printf.PrintDecimal: precision, `%s`, and reals; flags and width are parameters, how the format is taken apart being `FieldsTaken`. The magnitude is required to be a VHDL integer, as the simulation stops otherwise.
- RadixPrint.PrintRadix: `%X` (its table repeats a digit) and the `#` prefix.
- Scanf.Scan: the stream, the format string and the non-numeric conversions; the input is a text followed by NULs. A decimal number is required to be a VHDL integer.
- SxiDriver.SxiCb.Read: `copy_to_user` failures, the file offset and the wait queue; with nobody to fill it, a read of an empty buffer ends in a signal. `sxi_write` as a second producer.
- SharedBuffer.InvariantKept: accesses are interleaved in program order; reordering by a processor, and wrap-around of the `overflow` counter, are not modelled.
- CircBuffer.Space: the masks of the kernel's circ_buf.h, which is not part of this model, are taken as remainders; the buffer size is a power of two in the source.
- WbFifo.WbFifo.Clock: the bus process has no reset, so its registers are taken low at power-up and a reset in mid-run is not modelled; the identity and error words are named, not numbered; the bus acknowledge is left out.
- IrqManager.IrqManager.Clock: the read registers and acknowledges; a reset in mid-run.
- MaskImage.Mask.Clock: cells are unbounded; `RangeKept` and `SafeRun` say when they stay in the declared range. The image before the first reset is undefined in the source.
- Metavalues of std_logic, unisim buffers, tri-state buses, pin files and makefiles.
- Relative timing of the two clock simulators: they hold states for different numbers of cycles, so only the order of assignments is compared.
- The LED and button examples, `ctype_h` and `strings_h` beyond the character tests used, `endian_h`, the older `c_vhdl/ori` copies and the Python scripts: they would only add easy members.
