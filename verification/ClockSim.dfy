/** clocksim.vhdl: the SCLK divider, the strobe counter, the bit counter and the
    stack machine, driven by the system clock. */
module ClockSim {
  import opened Pins
  import opened PinTrace
  import opened ClockMachine
  import opened Waveform
  import opened Arithmetic

  // ---- The pins as a function of time, in half periods of SCLK since reset ----

  /** Rising and falling edges of SCLK in the first `h` half periods. */
  function Rises(h: nat): nat { (h + 1) / 2 }
  function Falls(h: nat): nat { h / 2 }

  predicate SclkAt(h: nat) { h % 2 == 1 }

  /** The strobe process counts rising edges up from 0, modulo 8. */
  function StrobeCountAt(h: nat): nat { Rises(h) % 8 }

  predicate StrobeAt(h: nat) { Rises(h) == 0 || Rises(h) % 8 != 0 }

  /** The serialiser counts falling edges down from 7, modulo 8. */
  function BitAt(h: nat): nat { 7 - Falls(h) % 8 }

  /** Phase lock: the two counters, clocked on opposite edges, never drift. */
  lemma PhaseLock(h: nat)
    ensures (StrobeCountAt(h) + BitAt(h)) % 8 == if SclkAt(h) then 0 else 7
  {
    var k := Falls(h);
    assert Rises(h) == if SclkAt(h) then k + 1 else k;
    assert (k + 1) % 8 == (k % 8 + 1) % 8;
  }

  /** STROBE is low exactly from a rising edge that presents bit 0 until the next
      rising edge: the last rise was at half period 2*Rises(h)-1. */
  lemma StrobeMarksBitZero(h: nat)
    ensures !StrobeAt(h) <==> Rises(h) > 0 && BitAt(2 * Rises(h) - 1) == 0
  {
    if Rises(h) > 0 {
      var r := 2 * Rises(h) - 1;
      PhaseLock(r);
      assert Rises(r) == Rises(h) && SclkAt(r);
    }
  }

  /** The four output lines while the pins show `w`. */
  function LineAt(w: Word, h: nat): Line {
    Line(SclkAt(h), w[BitAt(h)], w[BitAt(h) + 8], StrobeAt(h))
  }

  class ClockSim {
    const div: nat
    const n: nat              // rows and columns, 1280 in the source
    var sclk: bool
    var divider: nat
    var strobe: bool
    var strobeCount: nat
    var bit: nat
    var state: Word
    var stack: array<Mode>
    var idx: nat
    var ft: bool
    var rowDown: bool
    var downPixel: nat
    var pixelStep: nat
    var pmStep: nat
    var frameDowns: nat
    var readoutRows: nat
    var rowPixels: nat
    ghost var log: seq<Word>  // the state word after each group of assignments
    ghost var clocks: nat     // system clocks since reset

    ghost function View(): Regs
      reads this, stack
      requires idx < stack.Length
    {
      Regs(stack[..idx + 1], ft, rowDown, downPixel, pixelStep, pmStep,
           frameDowns, readoutRows, rowPixels, Trace(state, log))
    }

    ghost function HalfPeriods(): nat
      reads this
    {
      clocks / (div + 1)
    }

    /** Every run since reset: the registers are a closed form of the number of
        clocks, and the stack machine has made one step at each rise of SCLK. */
    ghost predicate Valid()
      reads this, stack
    {
      divider == clocks % (div + 1) && Tracks(HalfPeriods())
    }

    /** Power-up, which leaves SCLK, STROBE, `ft` and `row_down` undefined, and `bit`
        at the low end of its range: it takes a reset to begin a run. */
    constructor (div: nat, n: nat, sclk0: bool, strobe0: bool, ft0: bool, rowDown0: bool)
      ensures this.div == div && this.n == n && stack.Length == 4 && fresh(stack)
      ensures state == ZERO && bit == 0 && sclk == sclk0 && strobe == strobe0
    {
      this.div, this.n := div, n;
      sclk, divider := sclk0, 0;
      strobe, strobeCount := strobe0, 0;
      bit := 0;
      state := ZERO;
      stack := new Mode[4](_ => FRAME);
      idx := 0;
      ft, rowDown := ft0, rowDown0;
      downPixel, pixelStep, pmStep := 0, 0, 0;
      frameDowns, readoutRows, rowPixels := 0, 0, 0;
      log, clocks := [], 0;
    }

    /** The asynchronous reset, common to the four processes, from any state. */
    method Reset()
      requires stack.Length == 4
      modifies this, stack
      ensures Valid() && clocks == 0 && stack == old(stack)
    {
      hide Next, SclkAt, StrobeAt, StrobeCountAt, BitAt, Rises, Run, Shape;
      AtStart(n);
      ResetMachine();
      sclk, divider := false, 0;
      strobe, strobeCount := true, 0;
      bit := 7;
      clocks := 0;
    }

    method ResetMachine()
      requires stack.Length == 4
      modifies `state, `idx, `ft, `rowDown, `downPixel, `pixelStep, `pmStep, `frameDowns,
               `readoutRows, `rowPixels, `log, stack
      ensures idx == 0 && View() == RESET
    {
      state := ZERO;
      forall i | 0 <= i < 4 {
        stack[i] := FRAME;
      }
      idx := 0;
      ft, rowDown := false, false;
      downPixel, pixelStep, pmStep := 0, 0, 0;
      frameDowns, readoutRows, rowPixels := 0, 0, 0;
      log := [];
      assert stack[..1] == [FRAME];
    }

    /** A rising edge of the system clock. */
    method Clock()
      requires Valid()
      modifies this, stack
      ensures Valid() && clocks == old(clocks) + 1 && stack == old(stack)
    {
      hide Run, Next, SclkAt, StrobeCountAt, StrobeAt, BitAt, Rises;
      ghost var h := HalfPeriods();
      Ticks(clocks, div + 1);
      if divider < div {
        divider := divider + 1;
        clocks := clocks + 1;
      } else {
        divider := 0;
        ToggleSclk(h);
        clocks := clocks + 1;
      }
    }

    /** What waits for an edge of SCLK, and the edge itself. */
    ghost predicate Tracks(h: nat)
      reads this, stack
    {
      stack.Length == 4 && idx < 4 &&
      sclk == SclkAt(h) &&
      strobeCount == StrobeCountAt(h) && strobe == StrobeAt(h) &&
      bit == BitAt(h) &&
      View() == Run(n, RESET, Rises(h))
    }

    method ToggleSclk(ghost h: nat)
      requires Tracks(h)
      modifies `sclk, `bit, `strobeCount, `strobe, `state, `idx, `ft, `rowDown, `downPixel,
               `pixelStep, `pmStep, `frameDowns, `readoutRows, `rowPixels, `log, stack
      ensures Tracks(h + 1)
    {
      Edge(n, h);
      hide Run, Next, Shape, Prefix, SclkAt, StrobeCountAt, StrobeAt, BitAt, Rises, Falls, Drive;
      sclk := !sclk;
      if sclk {
        CountStrobe();
        StepMachine();
      } else {
        bit := if bit == 0 then 7 else bit - 1;
      }
    }

    /** The output lines: the stack machine's word, serialised. */
    method Outputs() returns (l: Line)
      requires Valid()
      ensures var h := HalfPeriods(); l == LineAt(Run(n, RESET, Rises(h)).trace.word, h)
      ensures var h := clocks / (div + 1);  // edges of SCLK so far, a rise first
              var k := (h + 1) / 2;         // and rises among them
              var w := Run(n, RESET, k).trace.word;
              l == Line(h % 2 == 1, w[7 - h / 2 % 8], w[15 - h / 2 % 8], k == 0 || k % 8 != 0)
    {
      CountersSmall(HalfPeriods());
      CountersAre(HalfPeriods());
      hide Run, SclkAt, StrobeAt, BitAt, Rises;
      l := Line(sclk, state[bit], state[bit + 8], strobe);
    }

    /** At any time the pins have followed frame(); readout(); and then frame() over
        and over. */
    lemma FollowsProgram()
      requires Valid()
      ensures exists m :: log <= Frames(n, Readout(n, Frame(n, RESET.trace)), m).log
    {
      var k := Rises(HalfPeriods());
      hide Frames, Readout, Frame, Run;
      EveryEdgeForever(n, k);
    }

    method CountStrobe()
      requires strobeCount < 8
      modifies `strobeCount, `strobe
      ensures strobeCount == (old(strobeCount) + 1) % 8 && strobe == (strobeCount != 0)
    {
      if strobeCount < 7 {
        strobeCount := strobeCount + 1;
        strobe := true;
      } else {
        strobeCount := 0;
        strobe := false;
      }
    }

    ghost predicate Ready()
      reads this, stack
    {
      stack.Length == 4 && idx < 4 && Shape(n, View())
    }

    /** The live stack never outgrows the four slots of the array. */
    lemma Depth()
      requires Ready()
      ensures stack[idx] == View().Top()
      ensures |Next(n, View()).stack| <= 4
    {
      assert View().stack[idx] == stack[idx];
      ShapeKept(n, View());
      StackBound(Next(n, View()).stack);
    }

    /** A rising edge of SCLK, as the state machine sees it. */
    method StepMachine()
      requires Ready()
      modifies `state, `idx, `ft, `rowDown, `downPixel, `pixelStep, `pmStep, `frameDowns,
               `readoutRows, `rowPixels, `log, stack
      ensures idx < 4 && View() == Next(n, old(View()))
    {
      match stack[idx] {
        case FRAME => StepFrame();
        case READOUT => StepReadout();
        case ROW => StepRow();
        case DOWN => StepDown();
        case PIXEL_MAYBE => StepPixelMaybe();
        case PIXEL => StepPixel();
      }
    }

    method StepFrame()
      requires Ready() && stack[idx] == FRAME
      modifies `state, `idx, `ft, `frameDowns, `log, stack
      ensures idx < 4 && View() == Next(n, old(View()))
    {
      Depth();
      hide Shape, PixelRise, PixelFall, DownRise, DownFall, FrameEnd, Drive;
      if frameDowns < n {
        ft := true;
        Push(DOWN);
        frameDowns := frameDowns + 1;
      } else {
        PinByPin(state);
        state := state[P2VI := false];
        log := log + [state];
        frameDowns := 0;
        idx := 0;
        stack[idx] := READOUT;
      }
    }

    method StepReadout()
      requires Ready() && stack[idx] == READOUT
      modifies `idx, `frameDowns, `readoutRows, stack
      ensures idx < 4 && View() == Next(n, old(View()))
    {
      Depth();
      hide Shape, PixelRise, PixelFall, DownRise, DownFall, FrameEnd, Drive;
      if readoutRows < n {
        Push(ROW);
        readoutRows := readoutRows + 1;
      } else {
        frameDowns := 0;
        idx := 0;
        stack[idx] := FRAME;
      }
    }

    method StepRow()
      requires Ready() && stack[idx] == ROW
      modifies `idx, `ft, `rowDown, `rowPixels, stack
      ensures idx < 4 && View() == Next(n, old(View()))
    {
      Depth();
      hide Shape, PixelRise, PixelFall, DownRise, DownFall, FrameEnd, Drive;
      if !rowDown {
        ft := false;
        Push(DOWN);
        rowDown := true;
      } else if rowPixels < n {
        Push(PIXEL);
        rowPixels := rowPixels + 1;
      } else {
        rowPixels := 0;
        rowDown := false;
        Return();
      }
    }

    method StepDown()
      requires Ready() && stack[idx] == DOWN
      modifies `state, `idx, `downPixel, `log, stack
      ensures idx < 4 && View() == Next(n, old(View()))
    {
      Depth();
      hide Shape, PixelRise, PixelFall, DownRise, DownFall, FrameEnd, Drive;
      PinByPin(state);
      if downPixel == 0 {
        state := state[P1VI := true][P1VS := true][P2VI := false][P2VS := false][TG := false];
        log := log + [state];
        Push(PIXEL_MAYBE);
        downPixel := 1;
      } else if downPixel == 1 {
        state := state[P1VI := false][P1VS := false][P2VI := true][P2VS := true][TG := true];
        log := log + [state];
        Push(PIXEL_MAYBE);
        downPixel := 2;
      } else {
        Return();
        downPixel := 0;
      }
    }

    method StepPixelMaybe()
      requires Ready() && stack[idx] == PIXEL_MAYBE
      modifies `idx, `pmStep, stack
      ensures idx < 4 && View() == Next(n, old(View()))
    {
      Depth();
      hide Shape, PixelRise, PixelFall, DownRise, DownFall, FrameEnd, Drive;
      if pmStep != 7 {
        if ft {
          Push(PIXEL);
          pmStep := 7;
        } else {
          pmStep := pmStep + 1;
        }
      } else {
        Return();
        pmStep := 0;
      }
    }

    method StepPixel()
      requires Ready() && stack[idx] == PIXEL
      modifies `state, `idx, `pixelStep, `log
      ensures idx < 4 && View() == Next(n, old(View()))
    {
      Depth();
      hide Shape, PixelRise, PixelFall, DownRise, DownFall, FrameEnd, Drive;
      PinByPin(state);
      if pixelStep == 0 {
        state := state[P1H := true][P2A4BH := true][P4A2BH := true]
                      [P3H := false][P2C4DH := false][P4C2DH := false][SG := false];
        log := log + [state];
        pixelStep := pixelStep + 1;
      } else if pixelStep == 5 {
        state := state[P1H := false][P2A4BH := false][P4A2BH := false]
                      [P3H := true][P2C4DH := true][P4C2DH := true][SG := true];
        log := log + [state];
        pixelStep := pixelStep + 1;
      } else if pixelStep == 7 {
        pixelStep := 0;
        Return();
      } else {
        pixelStep := pixelStep + 1;
      }
    }

    /** `idx := idx + 1; stack(idx) := m`, whatever an earlier call left in the slot. */
    method Push(m: Mode)
      requires stack.Length == 4 && idx < 3
      modifies `idx, stack
      ensures idx == old(idx) + 1 && stack[..idx + 1] == old(stack[..idx + 1]) + [m]
    {
      idx := idx + 1;
      stack[idx] := m;
    }

    method Return()
      requires stack.Length == 4 && 0 < idx < 4
      modifies `idx
      ensures idx == old(idx) - 1 && stack[..idx + 1] == old(stack[..idx + 1])[..old(idx)]
    {
      idx := idx - 1;
    }
  }

  lemma AtStart(n: nat)
    ensures !SclkAt(0) && StrobeAt(0) && StrobeCountAt(0) == 0 && BitAt(0) == 7
    ensures Run(n, RESET, Rises(0)) == RESET
  {}

  lemma Ticks(c: nat, d: nat)
    requires d > 0
    ensures (c + 1) / d == c / d + (if c % d == d - 1 then 1 else 0)
    ensures (c + 1) % d == if c % d == d - 1 then 0 else c % d + 1
  {
    var q, r := c / d, c % d;
    assert c == q * d + r;
    if r == d - 1 {
      assert c + 1 == (q + 1) * d;
      DivIs(c + 1, d, q + 1, 0);
    } else {
      DivIs(c + 1, d, q, r + 1);
    }
  }

  /** One more half period, seen by each counter. */
  lemma HalfPeriod(h: nat)
    ensures SclkAt(h + 1) == !SclkAt(h)
    ensures !SclkAt(h) ==>
              Rises(h + 1) == Rises(h) + 1 && Falls(h + 1) == Falls(h) &&
              StrobeCountAt(h + 1) == (StrobeCountAt(h) + 1) % 8 &&
              StrobeAt(h + 1) == (StrobeCountAt(h + 1) != 0) &&
              BitAt(h + 1) == BitAt(h)
    ensures SclkAt(h) ==>
              Rises(h + 1) == Rises(h) && Falls(h + 1) == Falls(h) + 1 &&
              StrobeCountAt(h + 1) == StrobeCountAt(h) && StrobeAt(h + 1) == StrobeAt(h) &&
              BitAt(h + 1) == (if BitAt(h) == 0 then 7 else BitAt(h) - 1)
  {}

  lemma CountersSmall(h: nat)
    ensures StrobeCountAt(h) < 8 && BitAt(h) < 8
  {}

  /** Each counter in plain arithmetic. */
  lemma CountersAre(h: nat)
    ensures Rises(h) == (h + 1) / 2 && SclkAt(h) == (h % 2 == 1) && BitAt(h) == 7 - h / 2 % 8
    ensures StrobeCountAt(h) == (h + 1) / 2 % 8 && StrobeAt(h) == ((h + 1) / 2 == 0 || (h + 1) / 2 % 8 != 0)
  {}

  /** What one more half period does to the counters and to the stack machine. */
  lemma Edge(n: nat, h: nat)
    ensures SclkAt(h + 1) == !SclkAt(h)
    ensures StrobeCountAt(h) < 8 && BitAt(h) < 8
    ensures Shape(n, Run(n, RESET, Rises(h)))
    ensures !SclkAt(h) ==>
              StrobeCountAt(h + 1) == (StrobeCountAt(h) + 1) % 8 &&
              StrobeAt(h + 1) == (StrobeCountAt(h + 1) != 0) &&
              BitAt(h + 1) == BitAt(h) &&
              Run(n, RESET, Rises(h + 1)) == Next(n, Run(n, RESET, Rises(h)))
    ensures SclkAt(h) ==>
              StrobeCountAt(h + 1) == StrobeCountAt(h) && StrobeAt(h + 1) == StrobeAt(h) &&
              BitAt(h + 1) == (if BitAt(h) == 0 then 7 else BitAt(h) - 1) &&
              Run(n, RESET, Rises(h + 1)) == Run(n, RESET, Rises(h))
  {
    HalfPeriod(h);
    CountersSmall(h);
    hide *;
    ShapeReachable(n, Rises(h));
    RunNext(n, RESET, Rises(h));
  }
}
