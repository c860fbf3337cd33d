/** sclk_data_acq.vhdl and data_bridge.vhdl: the system clock samples the four
    lines, shifts a bit of each channel in at every rise of SCLK and offers the
    word at every rise of STROBE. */
module FrontEnd {
  import opened Pins
  import opened Waveform

  type Byte = b: seq<bool> | |b| == 8 witness seq(8, _ => false)

  function LowByte(): Byte {
    seq(8, _ => false)
  }

  const ZERO_BYTE: Byte := LowByte()

  /** The registers of both processes; bytes are indexed by bit number. */
  datatype Front = Front(previousSclk: bool, a: Byte, b: Byte, previousStrobe: bool, wrEn: bool) {
    /** The word on the bridge's output, channel A in the high byte. */
    function Dout(): Word {
      b + a
    }
  }

  const RESET := Front(true, ZERO_BYTE, ZERO_BYTE, true, false)

  function ShiftIn(byte: Byte, bit: bool): Byte {
    [bit] + byte[..7]
  }

  function Next(f: Front, l: Line): Front {
    var rise := l.sclk && !f.previousSclk;
    Front(l.sclk,
          if rise then ShiftIn(f.a, l.a) else f.a,
          if rise then ShiftIn(f.b, l.b) else f.b,
          l.strobe,
          l.strobe && !f.previousStrobe)
  }

  function Run(f: Front, samples: seq<Line>): Front
    decreases |samples|
  {
    if samples == [] then f else Run(Next(f, samples[0]), samples[1..])
  }

  /** The words the queue is offered over a run, one for each clock that finds
      `wr_en` up. */
  function Writes(f: Front, samples: seq<Line>): seq<Word>
    decreases |samples|
  {
    if samples == [] then [] else
      (if f.wrEn then [f.Dout()] else []) + Writes(Next(f, samples[0]), samples[1..])
  }

  /** The words on the output at the rises of STROBE. */
  function Captured(f: Front, samples: seq<Line>): seq<Word>
    decreases |samples|
  {
    if samples == [] then [] else
      var f' := Next(f, samples[0]);
      (if f'.wrEn then [f'.Dout()] else []) + Captured(f', samples[1..])
  }

  lemma {:induction false} RunConcat(f: Front, x: seq<Line>, y: seq<Line>)
    ensures Run(f, x + y) == Run(Run(f, x), y)
    decreases |x|
  {
    if x == [] {
      assert x + y == y;
    } else {
      assert (x + y)[0] == x[0] && (x + y)[1..] == x[1..] + y;
      RunConcat(Next(f, x[0]), x[1..], y);
    }
  }

  lemma RunOne(f: Front, l: Line)
    ensures Run(f, [l]) == Next(f, l)
  {
    assert Run(f, [l]) == Run(Next(f, l), []);
  }

  /** One line more. */
  lemma {:induction false} CapturedLast(f: Front, x: seq<Line>, l: Line)
    ensures var g := Next(Run(f, x), l);
            Captured(f, x + [l]) == Captured(f, x) + if g.wrEn then [g.Dout()] else []
    decreases |x|
  {
    hide Next;
    if x == [] {
      assert x + [l] == [l];
      assert Captured(Next(f, l), []) == [];
    } else {
      assert (x + [l])[0] == x[0] && (x + [l])[1..] == x[1..] + [l];
      CapturedLast(Next(f, x[0]), x[1..], l);
    }
  }

  /** A write follows its capture by one clock, and may still be due at the end. */
  lemma {:induction false} WritesAreCaptures(f: Front, samples: seq<Line>)
    ensures var last := Run(f, samples);
            Writes(f, samples) + (if last.wrEn then [last.Dout()] else []) ==
            (if f.wrEn then [f.Dout()] else []) + Captured(f, samples)
    decreases |samples|
  {
    if samples == [] {
    } else {
      WritesAreCaptures(Next(f, samples[0]), samples[1..]);
    }
  }

  lemma {:induction false} NoWriteDue(f: Front, samples: seq<Line>)
    requires samples != [] && !samples[|samples| - 1].strobe
    ensures !Run(f, samples).wrEn
    decreases |samples|
  {
    if |samples| > 1 {
      NoWriteDue(Next(f, samples[0]), samples[1..]);
    } else {
      assert Run(f, samples) == Next(f, samples[0]);
    }
  }

  // ---- Each line may be held for any number of system clocks ----

  function Repeat(l: Line, k: nat): (ls: seq<Line>)
    ensures |ls| == k
  {
    if k == 0 then [] else [l] + Repeat(l, k - 1)
  }

  function Hold(lines: seq<Line>, holds: seq<nat>): seq<Line>
    requires |holds| == |lines|
  {
    if lines == [] then [] else Repeat(lines[0], holds[0]) + Hold(lines[1..], holds[1..])
  }

  predicate Clocked(holds: seq<nat>) {
    forall i :: 0 <= i < |holds| ==> holds[i] >= 1
  }

  lemma CapturesIgnoreWrEn(f: Front, samples: seq<Line>)
    ensures Captured(f, samples) == Captured(f.(wrEn := false), samples)
  {
    if samples != [] {
      assert Next(f, samples[0]) == Next(f.(wrEn := false), samples[0]);
    }
  }

  /** Seeing a line again changes nothing. */
  lemma {:induction false} CapturesOnce(f: Front, l: Line, k: nat, rest: seq<Line>)
    requires f.previousSclk == l.sclk && f.previousStrobe == l.strobe
    ensures Captured(f, Repeat(l, k) + rest) == Captured(f, rest)
    decreases k
  {
    if k == 0 {
      assert Repeat(l, 0) + rest == rest;
    } else {
      var samples := Repeat(l, k) + rest;
      assert samples[0] == l && samples[1..] == Repeat(l, k - 1) + rest;
      var f' := Next(f, l);
      assert f' == f.(wrEn := false);
      CapturesOnce(f', l, k - 1, rest);
      CapturesIgnoreWrEn(f, rest);
    }
  }

  lemma {:induction false} HoldsDoNotMatter(f: Front, lines: seq<Line>, holds: seq<nat>)
    requires |holds| == |lines| && Clocked(holds)
    ensures Captured(f, Hold(lines, holds)) == Captured(f, lines)
    decreases |lines|
  {
    if lines == [] {
    } else {
      var l, k, rest := lines[0], holds[0], Hold(lines[1..], holds[1..]);
      var samples := Hold(lines, holds);
      assert samples[0] == l && samples[1..] == Repeat(l, k - 1) + rest;
      CapturesOnce(Next(f, l), l, k - 1, rest);
      HoldsDoNotMatter(Next(f, l), lines[1..], holds[1..]);
    }
  }

  lemma {:induction false} HoldLast(lines: seq<Line>, holds: seq<nat>)
    requires |holds| == |lines| && Clocked(holds) && lines != []
    ensures Hold(lines, holds) != []
    ensures var h := Hold(lines, holds); h[|h| - 1] == lines[|lines| - 1]
  {
    RepeatLast(lines[0], holds[0]);
    if |lines| > 1 {
      HoldLast(lines[1..], holds[1..]);
    } else {
      assert Hold(lines[1..], holds[1..]) == [];
    }
  }

  lemma {:induction false} RepeatLast(l: Line, k: nat)
    requires k >= 1
    ensures Repeat(l, k)[k - 1] == l
  {
    if k == 1 {
    } else {
      RepeatLast(l, k - 1);
    }
  }

  // ---- One word, then many ----

  /** The word with its two bytes exchanged. */
  function Swap(w: Word): Word {
    w[8..] + w[..8]
  }

  /** The state after `k` bits of `w` have been shifted in. */
  function Shifted(f: Front, w: Word, k: nat): Front
    requires 1 <= k <= 8
  {
    Front(true, w[..k] + f.a[..8 - k], w[8..8 + k] + f.b[..8 - k], false, false)
  }

  lemma {:induction false} WordCaptured(f: Front, w: Word, k: nat, rest: seq<Line>)
    requires 1 <= k <= 8
    ensures Captured(f, WordFrom(w, k) + rest) ==
            (if f.previousStrobe then [] else [f.Dout()]) + Captured(Shifted(f, w, k), rest)
    decreases k
  {
    hide Next, Shifted, WordFrom, Captured, Front.Dout;
    BitFirst(w, k, rest);
    BitCaptured(f, w, k, WordFrom(w, k - 1) + rest);
    if k == 1 {
    } else {
      WordCaptured(AfterBit(f, w, k), w, k - 1, rest);
    }
  }

  function AfterBit(f: Front, w: Word, k: nat): Front
    requires 1 <= k <= 8
  {
    Next(Next(f, Line(false, w[k - 1], w[k + 7], true)), Line(true, w[k - 1], w[k + 7], k != 1))
  }

  /** The two lines of a bit offer the word before it, if any. */
  lemma BitCaptured(f: Front, w: Word, k: nat, tail: seq<Line>)
    requires 1 <= k <= 8
    ensures var low, high := Line(false, w[k - 1], w[k + 7], true), Line(true, w[k - 1], w[k + 7], k != 1);
            var g := AfterBit(f, w, k);
            Captured(f, [low] + ([high] + tail)) ==
            (if f.previousStrobe then [] else [f.Dout()]) + Captured(g, tail) &&
            if k == 1 then g == Shifted(f, w, 1)
            else g.previousStrobe && Shifted(g, w, k - 1) == Shifted(f, w, k)
  {
    var low, high := Line(false, w[k - 1], w[k + 7], true), Line(true, w[k - 1], w[k + 7], k != 1);
    hide Next, Shifted, Captured, Front.Dout;
    BitShifted(f, w, k);
    CapturedFirst(f, low, [high] + tail);
    CapturedFirst(Next(f, low), high, tail);
    assert [] + Captured(AfterBit(f, w, k), tail) == Captured(AfterBit(f, w, k), tail);
  }

  lemma BitFirst(w: Word, k: nat, rest: seq<Line>)
    requires 1 <= k <= 8
    ensures var low, high := Line(false, w[k - 1], w[k + 7], true), Line(true, w[k - 1], w[k + 7], k != 1);
            WordFrom(w, k) + rest == [low] + ([high] + (WordFrom(w, k - 1) + rest)) &&
            (k == 1 ==> WordFrom(w, k - 1) + rest == rest)
  {}

  lemma CapturedFirst(f: Front, l: Line, rest: seq<Line>)
    ensures var f' := Next(f, l);
            Captured(f, [l] + rest) == (if f'.wrEn then [f'.Dout()] else []) + Captured(f', rest)
  {
    hide Next;
    assert ([l] + rest)[0] == l && ([l] + rest)[1..] == rest;
  }

  /** The two lines of a bit: the low one offers the word before it, if any, and
      the high one shifts the bit in. */
  lemma BitShifted(f: Front, w: Word, k: nat)
    requires 1 <= k <= 8
    ensures var f1 := Next(f, Line(false, w[k - 1], w[k + 7], true));
            var f2 := Next(f1, Line(true, w[k - 1], w[k + 7], k != 1));
            f1.wrEn == !f.previousStrobe && f1.Dout() == f.Dout() && !f2.wrEn &&
            if k == 1 then f2 == Shifted(f, w, 1)
            else f2.previousStrobe && Shifted(f2, w, k - 1) == Shifted(f, w, k)
  {
    if k > 1 {
      ShiftJoins(w[..8], k, f.a);
      ShiftJoins(w[8..], k, f.b);
      assert w[..8][..k] == w[..k] && w[..8][..k - 1] == w[..k - 1];
      assert w[8..][..k] == w[8..8 + k] && w[8..][..k - 1] == w[8..7 + k];
    } else {
      assert w[..1] == [w[0]] && w[8..9] == [w[8]];
    }
  }

  lemma ShiftJoins(src: Byte, k: nat, byte: Byte)
    requires 1 < k <= 8
    ensures src[..k - 1] + ShiftIn(byte, src[k - 1])[..9 - k] == src[..k] + byte[..8 - k]
  {}

  function SwapAll(words: seq<Word>): seq<Word> {
    seq(|words|, i requires 0 <= i < |words| => Swap(words[i]))
  }

  /** Each word is captured when the next one begins. */
  lemma {:induction false} WavesCaptured(f: Front, words: seq<Word>)
    requires !f.previousStrobe && words != []
    ensures Captured(f, Waves(words)) == [f.Dout()] + SwapAll(words[..|words| - 1])
    decreases |words|
  {
    var w, rest := words[0], words[1..];
    var g := Shifted(f, w, 8);
    hide Captured, WordFrom, Swap, Front.Dout;
    WordCaptured(f, w, 8, Waves(rest));
    WholeShifted(f, w);
    if rest == [] {
      NothingCaptured(g);
    } else {
      WavesCaptured(g, rest);
      assert [Swap(w)] + SwapAll(rest[..|rest| - 1]) == SwapAll(words[..|words| - 1]);
    }
  }

  lemma WholeShifted(f: Front, w: Word)
    ensures Shifted(f, w, 8).Dout() == Swap(w)
  {}

  lemma NothingCaptured(f: Front)
    ensures Captured(f, []) == []
  {}

  /** What `clocksim.c` prints to send `words`: an idle line, then their waves. */
  function Transmission(words: seq<Word>): seq<Line> {
    [IDLE] + Waves(words)
  }

  /** What is received: the zeros the shift registers held, then every word but
      the last, bytes exchanged. */
  function Received(words: seq<Word>): seq<Word> {
    if words == [] then [] else [ZERO] + SwapAll(words[..|words| - 1])
  }

  /** Bit by bit: channel A comes in the high byte. */
  lemma ReceivedBits(words: seq<Word>, k: nat, i: nat)
    requires k < |words| && i < 16
    ensures |Received(words)| == |words|
    ensures Received(words)[k][i] == (k > 0 && words[k - 1][(i + 8) % 16])
  {
    var sent := words[..|words| - 1];
    SwapAllAt(sent);
    hide SwapAll;
    if k > 0 {
      assert Received(words)[k] == Swap(sent[k - 1]);
      SwapBit(sent[k - 1], i);
    }
  }

  lemma SwapBit(w: Word, i: nat)
    requires i < 16
    ensures Swap(w)[i] == w[(i + 8) % 16]
  {}

  lemma {:induction false} SwapAllAt(words: seq<Word>)
    ensures |SwapAll(words)| == |words|
    ensures forall k :: 0 <= k < |words| ==> SwapAll(words)[k] == Swap(words[k])
  {
    if words == [] {
    } else {
      SwapAllAt(words[1..]);
    }
  }

  lemma WavesEndLow(words: seq<Word>)
    requires words != []
    ensures Waves(words) != [] && !Waves(words)[|Waves(words)| - 1].strobe
  {
    WordEndsLow(words[0], 8);
    if |words| > 1 {
      WavesEndLow(words[1..]);
    } else {
      assert Waves(words) == WordLines(words[0]);
    }
  }

  lemma {:induction false} WordEndsLow(w: Word, k: nat)
    requires 1 <= k <= 8
    ensures |WordFrom(w, k)| == 2 * k && !WordFrom(w, k)[2 * k - 1].strobe
  {
    if k == 1 {
    } else {
      WordEndsLow(w, k - 1);
    }
  }

  /** Serialise then deserialise: whatever words are sent, and however long each
      line is held, the queue is offered exactly `Received` of them. */
  lemma Transmitted(words: seq<Word>, holds: seq<nat>)
    requires |holds| == |Transmission(words)| && Clocked(holds)
    ensures Writes(RESET, Hold(Transmission(words), holds)) == Received(words)
  {
    hide Captured, Writes, Run, Hold, Received, Next, Waves;
    var lines := Transmission(words);
    var samples := Hold(lines, holds);
    HoldsDoNotMatter(RESET, lines, holds);
    WritesAreCaptures(RESET, samples);
    HoldLast(lines, holds);
    TransmissionEndsLow(words);
    NoWriteDue(RESET, samples);
    TransmissionCaptured(words);
    assert Writes(RESET, samples) + [] == Writes(RESET, samples);
  }

  lemma TransmissionEndsLow(words: seq<Word>)
    ensures var lines := Transmission(words); !lines[|lines| - 1].strobe
  {
    if words == [] {
      assert Transmission(words) == [IDLE];
    } else {
      WavesEndLow(words);
    }
  }

  lemma TransmissionCaptured(words: seq<Word>)
    ensures Captured(RESET, Transmission(words)) == Received(words)
  {
    var f := Next(RESET, IDLE);
    CapturedFirst(RESET, IDLE, Waves(words));
    assert f.Dout() == ZERO;
    if words != [] {
      WavesCaptured(f, words);
    }
  }

  class SclkDataAcq {
    var aVal: Byte
    var bVal: Byte
    var previousSclk: bool

    constructor ()
      ensures aVal == ZERO_BYTE && bVal == ZERO_BYTE && previousSclk
    {
      aVal, bVal, previousSclk := ZERO_BYTE, ZERO_BYTE, true;
    }

    method Clock(sclk: bool, aIn: bool, bIn: bool)
      modifies this
      ensures previousSclk == sclk
      ensures var rise := sclk && !old(previousSclk);
              aVal == (if rise then ShiftIn(old(aVal), aIn) else old(aVal)) &&
              bVal == (if rise then ShiftIn(old(bVal), bIn) else old(bVal))
    {
      if sclk != previousSclk {
        if sclk {
          aVal := [aIn] + aVal[..7];
          bVal := [bIn] + bVal[..7];
        }
        previousSclk := sclk;
      }
    }
  }

  class DataBridge {
    var wrEn: bool
    var previousStrobe: bool

    constructor ()
      ensures !wrEn && previousStrobe
    {
      wrEn, previousStrobe := false, true;
    }

    method Clock(strobe: bool)
      modifies this
      ensures wrEn == (strobe && !old(previousStrobe)) && previousStrobe == strobe
    {
      wrEn := strobe != previousStrobe && strobe;
      previousStrobe := strobe;
    }

    function Dout(a: Byte, b: Byte): Word {
      b + a
    }
  }
}

/** wb_fifo_chain.vhdl: the front end feeding the bus queue. */
module WbFifoChain {
  import opened Pins
  import opened Waveform
  import opened FrontEnd
  import opened WbFifo
  import opened Wishbone

  /** What the bus queue sees, clock by clock, from the lines and the bus. */
  function Feed(f: Front, samples: seq<Line>, buses: seq<Bus>): (ins: seq<In<Word>>)
    requires |buses| == |samples|
    ensures |ins| == |samples|
    decreases |samples|
  {
    if samples == [] then [] else
      [In(buses[0], f.wrEn, f.Dout())] + Feed(FrontEnd.Next(f, samples[0]), samples[1..], buses[1..])
  }

  lemma {:induction false} OfferedFirst(i: In<Word>, ins: seq<In<Word>>)
    ensures Offered([i] + ins) == (if i.wrEn then [i.din] else []) + Offered(ins)
  {
    var all := [i] + ins;
    if ins == [] {
      assert all == [i] && all[..|all| - 1] == [];
    } else {
      assert all[..|all| - 1] == [i] + ins[..|ins| - 1];
      OfferedFirst(i, ins[..|ins| - 1]);
    }
  }

  lemma {:induction false} FeedOffers(f: Front, samples: seq<Line>, buses: seq<Bus>)
    requires |buses| == |samples|
    ensures Offered(Feed(f, samples, buses)) == Writes(f, samples)
    decreases |samples|
  {
    if samples == [] {
    } else {
      FeedOffers(FrontEnd.Next(f, samples[0]), samples[1..], buses[1..]);
      OfferedFirst(In(buses[0], f.wrEn, f.Dout()),
                   Feed(FrontEnd.Next(f, samples[0]), samples[1..], buses[1..]));
    }
  }

  lemma {:induction false} FeedReads(f: Front, samples: seq<Line>, buses: seq<Bus>, i: nat)
    requires |buses| == |samples| && i < |samples|
    ensures Feed(f, samples, buses)[i].bus == buses[i]
    decreases i
  {
    if i == 0 {
    } else {
      FeedReads(FrontEnd.Next(f, samples[0]), samples[1..], buses[1..], i - 1);
    }
  }

  /** End to end: `words` are sent, each line held for any number of clocks, while
      the bus does what it likes. If it reads with discipline and the queue never
      overflows, the values read and those left to read are the words received. */
  lemma EndToEnd(cap: nat, words: seq<Word>, holds: seq<nat>, buses: seq<Bus>)
    requires |holds| == |Transmission(words)| && Clocked(holds)
    requires |buses| == |Hold(Transmission(words), holds)|
    requires var ins := Feed(RESET, Hold(Transmission(words), holds), buses);
             Disciplined(cap, ins) && NoOverflow(cap, ins)
    ensures var ins := Feed(RESET, Hold(Transmission(words), holds), buses);
            Values(cap, ZERO, ins) + Unread(cap, ins) == Received(words)
  {
    var samples := Hold(Transmission(words), holds);
    var ins := Feed(RESET, samples, buses);
    Transmitted(words, holds);
    FeedOffers(RESET, samples, buses);
    Delivery(cap, ZERO, ins);
    OfferedAccepted(cap, ins);
  }

  /** With nobody reading, as many words as the queue has room for are kept, and
      they are the first received. */
  lemma EndToEndUnattended(cap: nat, words: seq<Word>, holds: seq<nat>, buses: seq<Bus>)
    requires |holds| == |Transmission(words)| && Clocked(holds)
    requires |buses| == |Hold(Transmission(words), holds)|
    requires forall i :: 0 <= i < |buses| ==> !ReadsData(buses[i])
    ensures var ins := Feed(RESET, Hold(Transmission(words), holds), buses);
            QueueAfter(cap, ins).items ==
            if |words| <= cap then Received(words) else Received(words)[..cap]
  {
    var samples := Hold(Transmission(words), holds);
    var ins := Feed(RESET, samples, buses);
    forall i | 0 <= i < |ins|
      ensures !ReadsData(ins[i].bus)
    {
      FeedReads(RESET, samples, buses, i);
    }
    Unattended(cap, ins);
    Transmitted(words, holds);
    FeedOffers(RESET, samples, buses);
  }

  lemma {:induction false} FeedLast(f: Front, samples: seq<Line>, buses: seq<Bus>, l: Line, bus: Bus)
    requires |buses| == |samples|
    ensures var g := FrontEnd.Run(f, samples);
            Feed(f, samples + [l], buses + [bus]) ==
            Feed(f, samples, buses) + [In(bus, g.wrEn, g.Dout())]
    decreases |samples|
  {
    if samples == [] {
      assert samples + [l] == [l] && buses + [bus] == [bus];
    } else {
      assert (samples + [l])[1..] == samples[1..] + [l];
      assert (buses + [bus])[1..] == buses[1..] + [bus];
      FeedLast(FrontEnd.Next(f, samples[0]), samples[1..], buses[1..], l, bus);
    }
  }

  class Chain {
    const acq: SclkDataAcq
    const bridge: DataBridge
    const wb: WbFifo<Word>
    ghost var samples: seq<Line>  // every clock since reset
    ghost var buses: seq<Bus>

    ghost function View(): Front
      reads acq, bridge
    {
      Front(acq.previousSclk, acq.aVal, acq.bVal, bridge.previousStrobe, bridge.wrEn)
    }

    ghost predicate Valid()
      reads this, acq, bridge, wb, wb.fifo, wb.fifo.reg
    {
      wb.Valid() && wb.fifo.zero == ZERO &&
      |buses| == |samples| &&
      View() == FrontEnd.Run(RESET, samples) &&
      wb.ins == Feed(RESET, samples, buses)
    }

    constructor (addrdepth: nat)
      requires addrdepth >= 1
      ensures Valid() && samples == [] && wb.fifo.addrdepth == addrdepth
      ensures fresh(acq) && fresh(bridge) && fresh(wb) && fresh(wb.fifo) && fresh(wb.fifo.reg)
    {
      acq := new SclkDataAcq();
      bridge := new DataBridge();
      wb := new WbFifo(addrdepth, ZERO);
      samples, buses := [], [];
    }

    /** A rising edge of the system clock: every process sees the old signals, so
        the queue is clocked with the word and `wr_en` of the clock before. */
    method Clock(l: Line, bus: Bus)
      requires Valid()
      modifies this, acq, bridge, wb, wb.fifo, wb.fifo.reg
      ensures Valid() && wb.fifo.reg == old(wb.fifo.reg)
      ensures samples == old(samples) + [l] && buses == old(buses) + [bus]
    {
      hide FrontEnd.Run, Feed, FrontEnd.Next;
      FeedLast(RESET, samples, buses, l, bus);
      RunConcat(RESET, samples, [l]);
      FrontEnd.RunOne(View(), l);
      wb.Clock(bus, bridge.wrEn, bridge.Dout(acq.aVal, acq.bVal));
      FrontClock(l);
      samples, buses := samples + [l], buses + [bus];
    }

    method FrontClock(l: Line)
      modifies acq, bridge
      ensures View() == FrontEnd.Next(old(View()), l)
    {
      acq.Clock(l.sclk, l.a, l.b);
      bridge.Clock(l.strobe);
    }
  }
}
