/** What the acquisition chain receives from clocksim.vhdl itself. STROBE rises
    together with the SCLK that shifts the next word's first bit, and the pins move
    inside a period, so a word received is put together from the words of eight
    rises of SCLK. */
module VhdlSender {
  import opened Pins
  import opened Waveform
  import opened ClockMachine
  import opened ClockSim
  import FrontEnd

  /** The pins after `r` rises of SCLK since reset. */
  function WordAt(n: nat, r: nat): Word {
    Run(n, RESET, r).trace.word
  }

  /** The four lines in the first `h` half periods, each as ClockSim.Outputs has it. */
  function Shown(n: nat, h: nat): (lines: seq<Line>)
    ensures |lines| == h
  {
    seq(h, i requires 0 <= i < h => LineAt(WordAt(n, Rises(i)), i))
  }

  /** One channel of the k-th word received: bit 0 is the channel's top pin at rise
      8k+1, and bit i the pin i-1 at the i-th rise before that. */
  function Mixed(n: nat, k: nat, base: nat): (b: FrontEnd.Byte)
    requires k >= 1 && base <= 8
  {
    seq(8, i requires 0 <= i < 8 =>
      if i == 0 then WordAt(n, 8 * k + 1)[base + 7] else WordAt(n, 8 * k + 1 - i)[base + i - 1])
  }

  function Capture(n: nat, k: nat): Word
    requires k >= 1
  {
    Mixed(n, k, 8) + Mixed(n, k, 0)
  }

  function CaptureCount(h: nat): nat {
    if h < 2 then 0 else (h - 2) / 16
  }

  function Captures(n: nat, h: nat): seq<Word> {
    seq(CaptureCount(h), k requires 0 <= k < CaptureCount(h) => Capture(n, k + 1))
  }

  // ---- The receiver after each half period ----

  /** A shift register after `r` rises: the newest bit first. */
  function Register(n: nat, r: nat, base: nat): (b: FrontEnd.Byte)
    requires base <= 8
  {
    seq(8, i requires 0 <= i < 8 => r > i && WordAt(n, r - i)[base + 7 - (r - i - 1) % 8])
  }

  function FrontAt(n: nat, h: nat): FrontEnd.Front {
    FrontEnd.Front(h == 0 || SclkAt(h - 1), Register(n, Falls(h), 0), Register(n, Falls(h), 8),
                   h == 0 || StrobeAt(h - 1), h >= 2 && StrobeAt(h - 1) && !StrobeAt(h - 2))
  }

  lemma RegisterShifts(n: nat, r: nat, base: nat)
    requires base <= 8
    ensures Register(n, r + 1, base) == FrontEnd.ShiftIn(Register(n, r, base), WordAt(n, r + 1)[base + 7 - r % 8])
  {
    hide Run;
    var next := Register(n, r + 1, base);
    forall i | 1 <= i < 8
      ensures next[i] == Register(n, r, base)[i - 1]
    {}
  }

  lemma EmptyRegister(n: nat, base: nat)
    requires base <= 8
    ensures Register(n, 0, base) == FrontEnd.ZERO_BYTE
  {}

  /** The line of half period `h`, and the counters around it. */
  lemma LineHere(n: nat, h: nat)
    ensures var l := LineAt(WordAt(n, Rises(h)), h);
            l.sclk == SclkAt(h) && l.strobe == StrobeAt(h) &&
            Falls(h + 1) == (if SclkAt(h) then Falls(h) + 1 else Falls(h)) &&
            (SclkAt(h) ==>
               var w, r := WordAt(n, Falls(h) + 1), Falls(h);
               l.a == w[7 - r % 8] && l.b == w[15 - r % 8])
    ensures if h == 0 then !SclkAt(h) && StrobeAt(h) else SclkAt(h) == !SclkAt(h - 1)
  {}

  lemma FrontStep(n: nat, h: nat)
    ensures FrontEnd.Next(FrontAt(n, h), LineAt(WordAt(n, Rises(h)), h)) == FrontAt(n, h + 1)
  {
    hide Register, WordAt, StrobeAt, SclkAt, LineAt, Falls, Rises, FrontEnd.ShiftIn;
    LineHere(n, h);
    if SclkAt(h) {
      RegisterShifts(n, Falls(h), 0);
      RegisterShifts(n, Falls(h), 8);
    }
  }

  lemma ShownNext(n: nat, h: nat)
    ensures Shown(n, h + 1) == Shown(n, h) + [LineAt(WordAt(n, Rises(h)), h)]
  {
    hide WordAt, LineAt;
  }

  lemma {:induction false} FrontAfter(n: nat, h: nat)
    ensures FrontEnd.Run(FrontEnd.RESET, Shown(n, h)) == FrontAt(n, h)
  {
    if h == 0 {
      EmptyRegister(n, 0);
      EmptyRegister(n, 8);
    } else {
      var l := LineAt(WordAt(n, Rises(h - 1)), h - 1);
      hide FrontAt, FrontEnd.Next, FrontEnd.Run, Shown, LineAt;
      FrontAfter(n, h - 1);
      ShownNext(n, h - 1);
      FrontEnd.RunConcat(FrontEnd.RESET, Shown(n, h - 1), [l]);
      FrontEnd.RunOne(FrontAt(n, h - 1), l);
      FrontStep(n, h - 1);
    }
  }

  /** STROBE rises with the SCLK of every rise 8k+1 but the first. */
  lemma WritesAt(n: nat, h: nat)
    requires h >= 1
    ensures FrontAt(n, h).wrEn <==> h >= 18 && h % 16 == 2
    ensures CaptureCount(h) == CaptureCount(h - 1) + (if h >= 18 && h % 16 == 2 then 1 else 0)
  {
    if h >= 2 {
      StrobeRises(h);
    }
    CountRises(h);
    hide CaptureCount, StrobeAt, SclkAt, Falls, Register;
  }

  lemma StrobeRises(h: nat)
    requires h >= 2
    ensures StrobeAt(h - 1) && !StrobeAt(h - 2) <==> h >= 18 && h % 16 == 2
  {
    var q, r := h / 16, h % 16;
    assert h / 2 == 8 * q + r / 2 && (r > 0 ==> (h - 1) / 2 == 8 * q + (r - 1) / 2);
    assert r == 0 ==> (h - 1) / 2 == 8 * q - 1;
  }

  lemma CountRises(h: nat)
    requires h >= 1
    ensures CaptureCount(h) == CaptureCount(h - 1) + (if h >= 18 && h % 16 == 2 then 1 else 0)
  {}

  lemma CaptureIs(n: nat, k: nat)
    requires k >= 1
    ensures FrontAt(n, 16 * k + 2).Dout() == Capture(n, k)
  {
    assert Falls(16 * k + 2) == 8 * k + 1;
    MixedIs(n, k, 0);
    MixedIs(n, k, 8);
  }

  lemma MixedIs(n: nat, k: nat, base: nat)
    requires k >= 1 && base <= 8
    ensures Register(n, 8 * k + 1, base) == Mixed(n, k, base)
  {
    hide WordAt;
    var s, t := Register(n, 8 * k + 1, base), Mixed(n, k, base);
    forall i | 0 <= i < 8
      ensures s[i] == t[i]
    {
      Phase(k, i);
    }
  }

  lemma Phase(k: nat, i: nat)
    requires k >= 1 && i < 8
    ensures (8 * k + 1 - i - 1) % 8 == if i == 0 then 0 else 8 - i
  {}

  lemma CapturesNext(n: nat, h: nat)
    requires h >= 1
    ensures Captures(n, h) ==
            Captures(n, h - 1) + if FrontAt(n, h).wrEn then [FrontAt(n, h).Dout()] else []
  {
    WritesAt(n, h);
    if h >= 18 && h % 16 == 2 {
      var k := h / 16;
      assert h == 16 * k + 2 && CaptureCount(h) == k;
      CaptureIs(n, k);
    }
    hide Capture, FrontAt;
  }

  /** The words received over the first `h` half periods, in closed form. */
  lemma {:induction false} Received(n: nat, h: nat)
    ensures FrontEnd.Captured(FrontEnd.RESET, Shown(n, h)) == Captures(n, h)
  {
    if h == 0 {
      assert Captures(n, 0) == [];
    } else {
      var l := LineAt(WordAt(n, Rises(h - 1)), h - 1);
      hide FrontAt, FrontEnd.Next, FrontEnd.Run, FrontEnd.Captured, Shown, LineAt, Captures;
      Received(n, h - 1);
      ShownNext(n, h - 1);
      FrontEnd.CapturedLast(FrontEnd.RESET, Shown(n, h - 1), l);
      FrontAfter(n, h - 1);
      FrontStep(n, h - 1);
      CapturesNext(n, h);
    }
  }

  /** However many system clocks each half period lasts. */
  lemma ReceivedHeld(n: nat, h: nat, holds: seq<nat>)
    requires |holds| == h && FrontEnd.Clocked(holds)
    ensures FrontEnd.Captured(FrontEnd.RESET, FrontEnd.Hold(Shown(n, h), holds)) == Captures(n, h)
  {
    FrontEnd.HoldsDoNotMatter(FrontEnd.RESET, Shown(n, h), holds);
    Received(n, h);
  }

  // ---- No word received is a word shown ----

  const LOW: FrontEnd.Byte := [false, false, false, false, false, false, false, false]
  const RAISED: FrontEnd.Byte := [true, false, true, false, false, false, false, false]
  const LOWERED: FrontEnd.Byte := [false, true, false, true, true, false, false, false]
  const ENDED: FrontEnd.Byte := [false, false, false, true, true, false, false, false]

  /** Channel A, which carries the vertical clocks. */
  function A(w: Word): FrontEnd.Byte {
    w[..8]
  }

  lemma Groups(w: Word)
    requires A(w) in {LOW, RAISED, LOWERED, ENDED}
    ensures A(DownRise(w)) == RAISED && A(DownFall(w)) == LOWERED
    ensures A(FrameEnd(w)) == if A(w) == LOWERED then ENDED else A(w)
  {
    hide DownRise, DownFall, FrameEnd;
    VerticalGroups(w);
    assert A(w) == [w[0], w[1], w[2], w[3], w[4], w[5], w[6], w[7]];
  }

  lemma VerticalGroups(w: Word)
    ensures A(DownRise(w)) == [true, false, true, false, false, w[5], w[6], w[7]]
    ensures A(DownFall(w)) == [false, true, false, true, true, w[5], w[6], w[7]]
    ensures A(FrameEnd(w)) == [w[0], false, w[2], w[3], w[4], w[5], w[6], w[7]]
    ensures A(PixelRise(w)) == A(w) && A(PixelFall(w)) == A(w) && A(ZERO) == LOW
  {}

  /** Channel A moves only when DOWN drives its pins and when a frame ends. */
  predicate Moves(n: nat, r: Regs) {
    r.stack != [] &&
    ((r.Top() == DOWN && r.downPixel < 2) || (r.Top() == FRAME && r.frameDowns >= n))
  }

  lemma ChannelStep(n: nat, r: Regs)
    requires A(r.trace.word) in {LOW, RAISED, LOWERED, ENDED}
    ensures var w, w' := A(r.trace.word), A(Next(n, r).trace.word);
            w' in {w, RAISED, LOWERED, ENDED} && (w' == ENDED ==> w != RAISED) &&
            (w' != w ==> Moves(n, r))
  {
    var w := r.trace.word;
    hide A, PixelRise, PixelFall, DownRise, DownFall, FrameEnd, Next, Moves;
    Groups(w);
    VerticalGroups(w);
    WordStep(n, r);
  }

  lemma WordStep(n: nat, r: Regs)
    ensures var w, w' := r.trace.word, Next(n, r).trace.word;
            if Moves(n, r) then w' in {DownRise(w), DownFall(w), FrameEnd(w)}
            else w' in {w, PixelRise(w), PixelFall(w)}
  {
    hide PixelRise, PixelFall, DownRise, DownFall, FrameEnd;
  }

  lemma MovesApart(n: nat, r: Regs)
    requires Moves(n, r)
    ensures !Moves(n, Next(n, r))
  {
    hide PixelRise, PixelFall, DownRise, DownFall, FrameEnd;
  }

  lemma {:induction false} KnownChannel(n: nat, r: nat)
    ensures A(WordAt(n, r)) in {LOW, RAISED, LOWERED, ENDED}
    ensures n >= 1 && r >= 2 ==> A(WordAt(n, r)) != LOW
  {
    if r == 0 {
      VerticalGroups(ZERO);
    } else if n >= 1 && r == 2 {
      FirstRises(n);
      KnownChannel(n, 1);
      Groups(WordAt(n, 1));
    } else {
      KnownChannel(n, r - 1);
      hide A, Next;
      ChannelStep(n, Run(n, RESET, r - 1));
    }
  }

  /** Two rises running do not both move channel A. */
  lemma HeldTwice(n: nat, r: nat)
    ensures A(WordAt(n, r)) == A(WordAt(n, r + 1)) || A(WordAt(n, r + 1)) == A(WordAt(n, r + 2))
    ensures A(WordAt(n, r + 1)) == ENDED ==> A(WordAt(n, r)) != RAISED
  {
    KnownChannel(n, r);
    KnownChannel(n, r + 1);
    hide A, Next;
    ChannelStep(n, Run(n, RESET, r));
    ChannelStep(n, Run(n, RESET, r + 1));
    if Moves(n, Run(n, RESET, r)) {
      MovesApart(n, Run(n, RESET, r));
    }
    RunNext(n, RESET, r);
    RunNext(n, RESET, r + 1);
  }

  /** The first two rises, of any machine with rows: FRAME calls DOWN, which drives
      the pins. */
  lemma FirstRises(n: nat)
    requires n >= 1
    ensures WordAt(n, 1) == ZERO && WordAt(n, 2) == DownRise(ZERO)
    ensures var r := Run(n, RESET, 2);
            r.stack == [FRAME, DOWN, PIXEL_MAYBE] && r.ft && r.pmStep == 0 && r.pixelStep == 0
  {
    hide Next, DownRise;
    FrameEdge(n, RESET);
    RunNext(n, RESET, 0);
    DownEdge(n, Run(n, RESET, 1));
    RunNext(n, RESET, 1);
  }

  /** With no rows the pins never move. */
  lemma {:induction false} NothingMoves(r: nat)
    ensures WordAt(0, r) == ZERO
    ensures var m := Run(0, RESET, r); m.stack in {[FRAME], [READOUT]} && m.frameDowns == m.readoutRows == 0
  {
    if r == 0 {
    } else {
      NothingMoves(r - 1);
      assert FrameEnd(ZERO) == ZERO;
      hide FrameEnd;
    }
  }

  /** A capture's high byte, from the words of its rises. */
  lemma HighByte(n: nat, k: nat)
    requires k >= 1
    ensures var c := Capture(n, k)[8..];
            c[0] == A(WordAt(n, 8 * k + 1))[7] &&
            c[1] == A(WordAt(n, 8 * k))[0] && c[2] == A(WordAt(n, 8 * k - 1))[1] &&
            c[3] == A(WordAt(n, 8 * k - 2))[2] && c[4] == A(WordAt(n, 8 * k - 3))[3] &&
            c[5] == A(WordAt(n, 8 * k - 4))[4]
  {
    hide WordAt;
    var c := Capture(n, k)[8..];
    assert c == Mixed(n, k, 0);
  }

  /** No word ever received from this sender, its bytes exchanged back, is a word it
      shows at any time: whatever the pins are doing, they do not move fast enough to
      make up for the shift by one bit. Only a machine with no rows, whose pins never
      move, is received as shown. */
  lemma ReceivedAsShown(n: nat, k: nat, r: nat)
    requires k >= 1
    ensures Capture(n, k) == FrontEnd.Swap(WordAt(n, r)) <==> n == 0
  {
    if n == 0 {
      StillReceived(k, r);
    } else {
      HighByteDiffers(n, k, r);
      assert FrontEnd.Swap(WordAt(n, r))[8..] == A(WordAt(n, r));
    }
  }

  lemma StillReceived(k: nat, r: nat)
    requires k >= 1
    ensures Capture(0, k) == FrontEnd.Swap(WordAt(0, r))
  {
    hide WordAt;
    NothingMoves(r);
    forall q
      ensures WordAt(0, q) == ZERO
    {
      NothingMoves(q);
    }
  }

  lemma HighByteDiffers(n: nat, k: nat, r: nat)
    requires n >= 1 && k >= 1
    ensures Capture(n, k)[8..] != A(WordAt(n, r))
  {
    hide A, WordAt, Capture;
    HighByte(n, k);
    KnownChannel(n, r);
    forall q | 2 <= q
      ensures A(WordAt(n, q)) in {RAISED, LOWERED, ENDED}
    {
      KnownChannel(n, q);
    }
    HeldTwice(n, 8 * k - 3);
    HeldTwice(n, 8 * k - 4);
    TooFast(Capture(n, k)[8..], A(WordAt(n, r)), A(WordAt(n, 8 * k)), A(WordAt(n, 8 * k - 1)),
            A(WordAt(n, 8 * k - 2)), A(WordAt(n, 8 * k - 3)), A(WordAt(n, 8 * k - 4)),
            A(WordAt(n, 8 * k + 1)));
  }

  /** What the byte would need of the channel at the rises before it, `x1` the
      latest. */
  lemma TooFast(c: FrontEnd.Byte, v: FrontEnd.Byte, x1: FrontEnd.Byte, x2: FrontEnd.Byte, x3: FrontEnd.Byte,
                x4: FrontEnd.Byte, x5: FrontEnd.Byte, x0: FrontEnd.Byte)
    requires v in {LOW, RAISED, LOWERED, ENDED}
    requires {x0, x1, x2, x3, x4, x5} <= {RAISED, LOWERED, ENDED}
    requires x4 == x3 || x3 == x2
    requires x5 == x4 || x4 == x3
    requires x3 == ENDED ==> x4 != RAISED
    requires c[0] == x0[7] && c[1] == x1[0] && c[2] == x2[1] && c[3] == x3[2] && c[4] == x4[3] && c[5] == x5[4]
    ensures c != v
  {}

  /** The first word received: the pins raised for the first vertical transfer, each
      one bit further up, and the first pixel's clocks as they moved meanwhile. */
  lemma FirstCapture(n: nat)
    requires n >= 1
    ensures A(WordAt(n, 8)) == RAISED
    ensures Capture(n, 1)[8..] == [false, true, false, true, false, false, false, false]
  {
    hide Next, A, Capture, DownRise;
    FirstRises(n);
    VerticalGroups(ZERO);
    Groups(ZERO);
    forall r | 2 <= r <= 9
      ensures A(WordAt(n, r)) == RAISED
    {
      FirstPixel(n, r);
    }
    FirstByte(n);
  }

  lemma FirstByte(n: nat)
    requires forall r :: 2 <= r <= 9 ==> A(WordAt(n, r)) == RAISED
    ensures Capture(n, 1)[8..] == [false, true, false, true, false, false, false, false]
  {
    hide WordAt;
    var c := Capture(n, 1)[8..];
    assert c == Mixed(n, 1, 0);
    forall i | 0 <= i < 8
      ensures c[i] == RAISED[if i == 0 then 7 else i - 1]
    {
      var w := WordAt(n, 9 - i);
      assert A(w) == RAISED && w[if i == 0 then 7 else i - 1] == A(w)[if i == 0 then 7 else i - 1];
    }
  }

  /** From the first drive of the pins to the ninth rise only a pixel is clocked. */
  lemma {:induction false} FirstPixel(n: nat, r: nat)
    requires n >= 1 && 2 <= r <= 9
    ensures A(WordAt(n, r)) == A(WordAt(n, 2))
    ensures var m := Run(n, RESET, r);
            if r == 2 then m.stack == [FRAME, DOWN, PIXEL_MAYBE] && m.ft && m.pmStep == 0 && m.pixelStep == 0
            else m.stack == [FRAME, DOWN, PIXEL_MAYBE, PIXEL] && m.pixelStep == r - 3
  {
    hide Next, A;
    if r == 2 {
      FirstRises(n);
    } else {
      FirstPixel(n, r - 1);
      var m := Run(n, RESET, r - 1);
      RunNext(n, RESET, r - 1);
      if r == 3 {
        PixelMaybeEdge(n, m);
      } else {
        PixelEdge(n, m);
        VerticalGroups(m.trace.word);
      }
    }
  }
}
