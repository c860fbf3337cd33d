/** The stack machine of clocksim.vhdl, as a transition function on the values
    its process holds between two rising edges of SCLK. The stack is the live
    part of the VHDL array, `stack(0 to idx)`, top last. `n` is the row and frame
    size, 1280 in the source. */
module ClockMachine {
  import opened Pins
  import opened PinTrace

  datatype Mode = PIXEL | PIXEL_MAYBE | DOWN | FRAME | ROW | READOUT

  datatype Regs = Regs(
    stack: seq<Mode>,
    ft: bool,
    rowDown: bool,
    downPixel: nat,
    pixelStep: nat,
    pmStep: nat,
    frameDowns: nat,
    readoutRows: nat,
    rowPixels: nat,
    trace: Trace)
  {
    function Top(): Mode
      requires stack != []
    {
      stack[|stack| - 1]
    }

    function Push(m: Mode): Regs {
      this.(stack := stack + [m])
    }

    function Pop(): Regs
      requires stack != []
    {
      this.(stack := stack[..|stack| - 1])
    }

    function Set(w: Word): Regs {
      this.(trace := trace.Set(w))
    }
  }

  const RESET := Regs([FRAME], false, false, 0, 0, 0, 0, 0, 0, Trace(ZERO, []))

  /** One rising edge of SCLK. An empty stack and a counter outside its VHDL
      range do not occur; `Shape` says so. */
  function Next(n: nat, r: Regs): Regs
  {
    if r.stack == [] then r else
    match r.Top()
    case FRAME =>
      if r.frameDowns < n then
        r.(ft := true, frameDowns := r.frameDowns + 1).Push(DOWN)
      else
        r.(frameDowns := 0, stack := [READOUT]).Set(FrameEnd(r.trace.word))
    case READOUT =>
      if r.readoutRows < n then
        r.(readoutRows := r.readoutRows + 1).Push(ROW)
      else
        r.(frameDowns := 0, stack := [FRAME])
    case ROW =>
      if !r.rowDown then r.(ft := false, rowDown := true).Push(DOWN)
      else if r.rowPixels < n then r.(rowPixels := r.rowPixels + 1).Push(PIXEL)
      else r.(rowPixels := 0, rowDown := false).Pop()
    case DOWN =>
      if r.downPixel == 0 then
        r.(downPixel := 1).Push(PIXEL_MAYBE).Set(DownRise(r.trace.word))
      else if r.downPixel == 1 then
        r.(downPixel := 2).Push(PIXEL_MAYBE).Set(DownFall(r.trace.word))
      else
        r.(downPixel := 0).Pop()
    case PIXEL_MAYBE =>
      if r.pmStep != 7 then
        if r.ft then r.(pmStep := 7).Push(PIXEL) else r.(pmStep := r.pmStep + 1)
      else
        r.(pmStep := 0).Pop()
    case PIXEL =>
      if r.pixelStep == 0 then r.(pixelStep := 1).Set(PixelRise(r.trace.word))
      else if r.pixelStep == 5 then r.(pixelStep := 6).Set(PixelFall(r.trace.word))
      else if r.pixelStep == 7 then r.(pixelStep := 0).Pop()
      else r.(pixelStep := r.pixelStep + 1)
  }

  /** The machine after `k` rising edges. */
  function Run(n: nat, r: Regs, k: nat): Regs
  {
    if k == 0 then r else Next(n, Run(n, r, k - 1))
  }

  lemma RunNext(n: nat, r: Regs, k: nat)
    ensures Run(n, r, k + 1) == Next(n, Run(n, r, k))
  {
    hide Next;
  }

  lemma {:induction false} RunAdd(n: nat, r: Regs, j: nat, k: nat)
    ensures Run(n, r, j + k) == Run(n, Run(n, r, j), k)
  {
    hide Next;
    if k == 0 {
    } else {
      RunAdd(n, r, j, k - 1);
    }
  }

  /** One edge then `k` more. */
  lemma RunOneThen(n: nat, r: Regs, k: nat)
    ensures Run(n, r, 1 + k) == Run(n, Next(n, r), k)
  {
    hide Next;
    RunAdd(n, r, 1, k);
    RunNext(n, r, 0);
  }

  // ---- What holds in every reachable state ----

  predicate Prefix(s: seq<Mode>) {
    s != [] &&
    (s <= [FRAME, DOWN, PIXEL_MAYBE, PIXEL] ||
     s <= [READOUT, ROW, DOWN, PIXEL_MAYBE] ||
     s <= [READOUT, ROW, PIXEL])
  }

  /** A vertical transfer, or more, is in progress under ROW. */
  predicate UnderRow(s: seq<Mode>) {
    |s| >= 3 && s[0] == READOUT && s[1] == ROW && s[2] == DOWN
  }

  /** The stack is one of the ten the program can build, no vertical transfer
      under ROW clocks pixels, and every counter is inside its VHDL range. */
  predicate Shape(n: nat, r: Regs) {
    Prefix(r.stack) &&
    (UnderRow(r.stack) ==> !r.ft) &&
    r.downPixel <= 2 && r.pixelStep <= 7 && r.pmStep <= 7 &&
    r.frameDowns <= n && r.readoutRows <= n && r.rowPixels <= n
  }

  lemma StackBound(s: seq<Mode>)
    requires Prefix(s)
    ensures 1 <= |s| <= 4
  {}

  lemma Popped(s: seq<Mode>)
    requires Prefix(s) && s[|s| - 1] !in {FRAME, READOUT}
    ensures Prefix(s[..|s| - 1])
    ensures UnderRow(s[..|s| - 1]) ==> UnderRow(s)
  {}

  /** What each mode pushes keeps the stack a prefix; PIXEL_MAYBE may push PIXEL
      only outside a ROW. */
  lemma Pushed(s: seq<Mode>, m: Mode)
    requires Prefix(s)
    requires (s[|s| - 1], m) in {(FRAME, DOWN), (READOUT, ROW), (ROW, DOWN), (ROW, PIXEL), (DOWN, PIXEL_MAYBE)}
             || ((s[|s| - 1], m) == (PIXEL_MAYBE, PIXEL) && !UnderRow(s))
    ensures Prefix(s + [m])
    ensures UnderRow(s + [m]) ==> UnderRow(s) || (s[|s| - 1] == ROW && m == DOWN)
  {
    if s <= [FRAME, DOWN, PIXEL_MAYBE, PIXEL] {
      assert s == [FRAME, DOWN, PIXEL_MAYBE, PIXEL][..|s|];
    } else if s <= [READOUT, ROW, DOWN, PIXEL_MAYBE] {
      assert s == [READOUT, ROW, DOWN, PIXEL_MAYBE][..|s|];
    }
  }

  lemma ShapeKept(n: nat, r: Regs)
    requires Shape(n, r)
    ensures Shape(n, Next(n, r))
  {
    if r.Top() == FRAME || r.Top() == READOUT || r.Top() == ROW {
      LoopsKeepShape(n, r);
    } else {
      LeavesKeepShape(n, r);
    }
  }

  lemma LoopsKeepShape(n: nat, r: Regs)
    requires Shape(n, r) && (r.Top() == FRAME || r.Top() == READOUT || r.Top() == ROW)
    ensures Shape(n, Next(n, r))
  {
    var s := r.stack;
    var top := s[|s| - 1];
    assert Prefix([READOUT]) && Prefix([FRAME]) && !UnderRow([READOUT]) && !UnderRow([FRAME]);
    assert top == FRAME || top == READOUT ==> |s| == 1;
    hide Prefix, UnderRow;
    match top
    case FRAME => Pushed(s, DOWN);
    case READOUT => Pushed(s, ROW);
    case ROW => Pushed(s, DOWN); Pushed(s, PIXEL); Popped(s);
  }

  lemma LeavesKeepShape(n: nat, r: Regs)
    requires Shape(n, r) && (r.Top() == DOWN || r.Top() == PIXEL_MAYBE || r.Top() == PIXEL)
    ensures Shape(n, Next(n, r))
  {
    match r.Top()
    case DOWN => DownKeepsShape(n, r);
    case PIXEL_MAYBE => PixelMaybeKeepsShape(n, r);
    case PIXEL => PixelKeepsShape(n, r);
  }

  lemma DownKeepsShape(n: nat, r: Regs)
    requires Shape(n, r) && r.Top() == DOWN
    ensures Shape(n, Next(n, r))
  {
    hide Prefix, UnderRow, DownRise, DownFall;
    Popped(r.stack);
    Pushed(r.stack, PIXEL_MAYBE);
  }

  lemma PixelMaybeKeepsShape(n: nat, r: Regs)
    requires Shape(n, r) && r.Top() == PIXEL_MAYBE
    ensures Shape(n, Next(n, r))
  {
    hide Prefix, UnderRow;
    Popped(r.stack);
    if r.ft {
      Pushed(r.stack, PIXEL);
    }
  }

  lemma PixelKeepsShape(n: nat, r: Regs)
    requires Shape(n, r) && r.Top() == PIXEL
    ensures Shape(n, Next(n, r))
  {
    hide Prefix, UnderRow, PixelRise, PixelFall;
    Popped(r.stack);
  }

  lemma {:induction false} ShapeReachable(n: nat, k: nat)
    ensures Shape(n, Run(n, RESET, k))
  {
    if k == 0 {
    } else {
      hide Next;
      ShapeReachable(n, k - 1);
      ShapeKept(n, Run(n, RESET, k - 1));
    }
  }

  // ---- Each mode, from entry to return, does its C function ----

  /** While PIXEL is on top, seven edges count its step and the eighth returns. */
  lemma PixelEdge(n: nat, r: Regs)
    requires r.stack != [] && r.Top() == PIXEL && r.pixelStep <= 7
    ensures Next(n, r) ==
            if r.pixelStep == 0 then r.(pixelStep := 1, trace := r.trace.Set(PixelRise(r.trace.word)))
            else if r.pixelStep == 5 then r.(pixelStep := 6, trace := r.trace.Set(PixelFall(r.trace.word)))
            else if r.pixelStep == 7 then r.Pop().(pixelStep := 0)
            else r.(pixelStep := r.pixelStep + 1)
  {}

  lemma PixelMaybeEdge(n: nat, r: Regs)
    requires r.stack != [] && r.Top() == PIXEL_MAYBE
    ensures Next(n, r) ==
            if r.pmStep == 7 then r.Pop().(pmStep := 0)
            else if r.ft then r.(pmStep := 7).Push(PIXEL)
            else r.(pmStep := r.pmStep + 1)
  {}

  lemma DownEdge(n: nat, r: Regs)
    requires r.stack != [] && r.Top() == DOWN && r.downPixel <= 2
    ensures var w := if r.downPixel == 0 then DownRise(r.trace.word) else DownFall(r.trace.word);
            Next(n, r) ==
            if r.downPixel == 2 then r.Pop().(downPixel := 0)
            else r.(downPixel := r.downPixel + 1, trace := r.trace.Set(w)).Push(PIXEL_MAYBE)
  {}

  lemma FrameEdge(n: nat, r: Regs)
    requires r.stack != [] && r.Top() == FRAME && r.frameDowns <= n
    ensures Next(n, r) ==
            if r.frameDowns == n then
              r.(frameDowns := 0, stack := [READOUT], trace := r.trace.Set(FrameEnd(r.trace.word)))
            else r.(ft := true, frameDowns := r.frameDowns + 1).Push(DOWN)
  {}

  lemma RowEdge(n: nat, r: Regs)
    requires r.stack != [] && r.Top() == ROW && (r.rowDown ==> r.rowPixels <= n)
    ensures Next(n, r) ==
            if !r.rowDown then r.(ft := false, rowDown := true).Push(DOWN)
            else if r.rowPixels == n then r.Pop().(rowDown := false, rowPixels := 0)
            else r.(rowPixels := r.rowPixels + 1).Push(PIXEL)
  {}

  lemma ReadoutEdge(n: nat, r: Regs)
    requires r.stack == [READOUT] && r.readoutRows <= n
    ensures Next(n, r) ==
            if r.readoutRows == n then r.(frameDowns := 0, stack := [FRAME])
            else r.(readoutRows := r.readoutRows + 1).Push(ROW)
  {}

  /** The clocks of a pixel, by pin number: raised after the first edge, lowered after
      the sixth. */
  lemma {:induction false} PixelTimes(n: nat, r: Regs, i: nat)
    requires r.stack != [] && r.Top() == PIXEL && r.pixelStep == 0 && i <= 7
    ensures var w, log := r.trace.word, r.trace.log;
            var up: Word := w[8 := true][10 := true][11 := true][9 := false][12 := false][13 := false][14 := false];
            var down: Word := w[8 := false][10 := false][11 := false][9 := true][12 := true][13 := true][14 := true];
            Run(n, r, i) == r.(pixelStep := i, trace := if i == 0 then r.trace
                                                        else if i <= 5 then Trace(up, log + [up])
                                                        else Trace(down, log + [up, down]))
  {
    hide Next, PixelRise, PixelFall;
    if i == 0 {
    } else {
      PixelTimes(n, r, i - 1);
      PixelEdge(n, Run(n, r, i - 1));
      RunNext(n, r, i - 1);
      PixelLog(r.trace);
      PinNumbers(r.trace.word);
    }
  }

  lemma PixelSteps(n: nat, r: Regs)
    requires r.stack != [] && r.Top() == PIXEL && r.pixelStep == 0
    ensures Run(n, r, 8) == r.Pop().(trace := Pixel(r.trace))
  {
    hide Next, PixelRise, PixelFall, Pixel;
    PixelTimes(n, r, 7);
    PixelLog(r.trace);
    PixelEdge(n, Run(n, r, 7));
    RunNext(n, r, 7);
  }

  lemma {:induction false} WaitSteps(n: nat, r: Regs, k: nat)
    requires r.stack != [] && r.Top() == PIXEL_MAYBE && r.pmStep == 0 && !r.ft && k <= 7
    ensures Run(n, r, k) == r.(pmStep := k)
  {
    hide Next;
    if k == 0 {
    } else {
      WaitSteps(n, r, k - 1);
      PixelMaybeEdge(n, Run(n, r, k - 1));
      RunNext(n, r, k - 1);
    }
  }

  lemma PixelMaybeSteps(n: nat, r: Regs)
    requires r.stack != [] && r.Top() == PIXEL_MAYBE && r.pmStep == 0 && r.pixelStep == 0
    ensures Run(n, r, if r.ft then 10 else 8) == r.Pop().(trace := PixelMaybe(r.trace, r.ft))
  {
    hide Next, Pixel;
    if r.ft {
      PixelMaybeEdge(n, r);
      PixelSteps(n, r.(pmStep := 7).Push(PIXEL));
      RunOneThen(n, r, 8);
      var r9 := r.(pmStep := 7, trace := Pixel(r.trace));
      assert Run(n, r, 9) == r9;
      PixelMaybeEdge(n, r9);
      RunNext(n, r, 9);
    } else {
      WaitSteps(n, r, 7);
      PixelMaybeEdge(n, Run(n, r, 7));
      RunNext(n, r, 7);
    }
  }

  /** The same inside a transfer that clocks pixels: two edges later. */
  lemma PixelMaybeTimes(n: nat, r: Regs, i: nat)
    requires r.stack != [] && r.Top() == PIXEL_MAYBE && r.pmStep == 0 && r.pixelStep == 0 && r.ft && i <= 10
    ensures var w := r.trace.word;
            var up: Word := w[8 := true][10 := true][11 := true][9 := false][12 := false][13 := false][14 := false];
            var down: Word := w[8 := false][10 := false][11 := false][9 := true][12 := true][13 := true][14 := true];
            Run(n, r, i).trace.word == if i <= 1 then w else if i <= 6 then up else down
  {
    hide Next, Run, Pixel;
    PixelMaybeEdge(n, r);
    RunZero(n, r);
    if i > 0 {
      RunOneThen(n, r, i - 1);
      if i <= 8 {
        PixelTimes(n, Next(n, r), i - 1);
      } else {
        PixelSteps(n, Next(n, r));
        PixelLog(r.trace);
        PixelMaybeSteps(n, r);
      }
    }
  }

  lemma RunZero(n: nat, r: Regs)
    ensures Run(n, r, 0) == r
  {}

  function DownEdges(ft: bool): nat {
    if ft then 23 else 19
  }

  /** No vertical transfer and no pixel is in progress. */
  predicate Quiet(r: Regs) {
    r.downPixel == 0 && r.pmStep == 0 && r.pixelStep == 0
  }

  /** Half of a vertical transfer: one edge to drive the pins, then the optional
      pixel. */
  lemma HalfDownSteps(n: nat, r: Regs)
    requires r.stack != [] && r.Top() == DOWN && r.downPixel < 2 && r.pmStep == 0 && r.pixelStep == 0
    ensures var w := if r.downPixel == 0 then DownRise(r.trace.word) else DownFall(r.trace.word);
            Run(n, r, if r.ft then 11 else 9) ==
            r.(downPixel := r.downPixel + 1, trace := PixelMaybe(r.trace.Set(w), r.ft))
  {
    hide Next, PixelMaybe, DownRise, DownFall;
    DownEdge(n, r);
    PixelMaybeSteps(n, Next(n, r));
    RunOneThen(n, r, if r.ft then 10 else 8);
  }

  lemma DownSteps(n: nat, r: Regs)
    requires r.stack != [] && r.Top() == DOWN && Quiet(r)
    ensures Run(n, r, DownEdges(r.ft)) == r.Pop().(trace := Down(r.trace, r.ft))
  {
    hide Next, PixelMaybe;
    var c := if r.ft then 11 else 9;
    HalfDownSteps(n, r);
    HalfDownSteps(n, Run(n, r, c));
    RunAdd(n, r, c, c);
    var r2 := r.(downPixel := 2, trace := Down(r.trace, r.ft));
    assert Run(n, r, c + c) == r2;
    DownEdge(n, r2);
    RunNext(n, r, c + c);
  }

  /** Half of a transfer with its pixel, edge by edge. */
  lemma HalfDownTimes(n: nat, r: Regs, i: nat)
    requires r.stack != [] && r.Top() == DOWN && r.downPixel < 2 && r.pmStep == 0 && r.pixelStep == 0 && r.ft
    requires 1 <= i <= 11
    ensures var w := if r.downPixel == 0 then DownRise(r.trace.word) else DownFall(r.trace.word);
            var up: Word := w[8 := true][10 := true][11 := true][9 := false][12 := false][13 := false][14 := false];
            var down: Word := w[8 := false][10 := false][11 := false][9 := true][12 := true][13 := true][14 := true];
            Run(n, r, i).trace.word == if i <= 2 then w else if i <= 7 then up else down
  {
    hide Next, Run, DownRise, DownFall;
    DownEdge(n, r);
    RunOneThen(n, r, i - 1);
    PixelMaybeTimes(n, Next(n, r), i - 1);
  }

  /** The clocks of a whole transfer with its pixels, by pin number. */
  lemma DownTimes(n: nat, r: Regs, i: nat)
    requires r.stack != [] && r.Top() == DOWN && Quiet(r) && r.ft && 1 <= i <= 22
    ensures var first: Word := r.trace.word[0 := true][2 := true][1 := false][3 := false][4 := false];
            var w: Word := if i <= 11 then first else
                           first[8 := false][10 := false][11 := false][9 := true][12 := true][13 := true][14 := true]
                                [0 := false][2 := false][1 := true][3 := true][4 := true];
            var up: Word := w[8 := true][10 := true][11 := true][9 := false][12 := false][13 := false][14 := false];
            var down: Word := w[8 := false][10 := false][11 := false][9 := true][12 := true][13 := true][14 := true];
            var j := if i <= 11 then i else i - 11;
            Run(n, r, i).trace.word == if j <= 2 then w else if j <= 7 then up else down
  {
    hide Next, Run, DownRise, DownFall, PixelMaybe;
    PinNumbers(r.trace.word);
    if i <= 11 {
      HalfDownTimes(n, r, i);
    } else {
      HalfDownSteps(n, r);
      var r' := Run(n, r, 11);
      HalfDownTimes(n, r, 11);
      HalfDownTimes(n, r', i - 11);
      PinNumbers(r'.trace.word);
      RunAdd(n, r, 11, i - 11);
    }
  }

  /** And of one without. */
  lemma DownTimesAlone(n: nat, r: Regs, i: nat)
    requires r.stack != [] && r.Top() == DOWN && Quiet(r) && !r.ft && 1 <= i <= 18
    ensures var first: Word := r.trace.word[0 := true][2 := true][1 := false][3 := false][4 := false];
            Run(n, r, i).trace.word ==
            if i <= 9 then first else first[0 := false][2 := false][1 := true][3 := true][4 := true]
  {
    hide Next, Run, DownRise, DownFall, PixelMaybe;
    PinNumbers(r.trace.word);
    if i <= 9 {
      HalfDownAlone(n, r, i);
    } else {
      HalfDownAlone(n, r, 9);
      HalfDownSteps(n, r);
      var r' := Run(n, r, 9);
      HalfDownAlone(n, r', i - 9);
      PinNumbers(r'.trace.word);
      RunAdd(n, r, 9, i - 9);
    }
  }

  lemma HalfDownAlone(n: nat, r: Regs, i: nat)
    requires r.stack != [] && r.Top() == DOWN && r.downPixel < 2 && r.pmStep == 0 && r.pixelStep == 0 && !r.ft
    requires 1 <= i <= 9
    ensures Run(n, r, i).trace.word == if r.downPixel == 0 then DownRise(r.trace.word) else DownFall(r.trace.word)
  {
    hide Next, Run, DownRise, DownFall, Pixel;
    DownEdge(n, r);
    RunOneThen(n, r, i - 1);
    if i == 9 {
      HalfDownSteps(n, r);
    } else {
      WaitSteps(n, Next(n, r), i - 1);
    }
  }

  /** One call made by a loop of the program: an edge that pushes, then the
      callee. */
  lemma CallDown(n: nat, r: Regs)
    requires r.stack != [] && r.Top() == FRAME && Quiet(r) && r.frameDowns < n
    ensures Run(n, r, 24) == r.(frameDowns := r.frameDowns + 1, ft := true, trace := Down(r.trace, true))
  {
    hide Next, Down;
    FrameEdge(n, r);
    DownSteps(n, Next(n, r));
    RunOneThen(n, r, 23);
  }

  lemma {:induction false} DownsSteps(n: nat, r: Regs, k: nat)
    requires r.stack != [] && r.Top() == FRAME && Quiet(r) && r.frameDowns + k <= n
    ensures Run(n, r, 24 * k) ==
            r.(frameDowns := r.frameDowns + k, ft := r.ft || k > 0, trace := Downs(r.trace, k))
  {
    hide Next, Down;
    if k == 0 {
    } else {
      DownsSteps(n, r, k - 1);
      CallDown(n, Run(n, r, 24 * (k - 1)));
      RunAdd(n, r, 24 * (k - 1), 24);
    }
  }

  /** A transfer by the pins that are high, given what it begins with at pin `b`. */
  lemma DownPins(n: nat, r: Regs, later: bool, j: nat, b: nat)
    requires r.stack != [] && r.Top() == DOWN && Quiet(r) && r.ft && 2 <= j <= 23 && b < 16
    requires r.trace.word[b] == (later && b in {1, 3, 4, 9, 12, 13, 14})
    ensures Run(n, r, j - 1).trace.word[b] ==
            (b in (if j <= 12 then {0, 2} else {1, 3, 4}) ||
             b in (if 4 <= j <= 8 || 15 <= j <= 19 then {8, 10, 11}
                   else if j <= 3 && !later then {} else {9, 12, 13, 14}))
  {
    hide Run;
    DownTimes(n, r, j - 1);
    if 4 <= j <= 8 || 15 <= j <= 19 {
    } else if j <= 3 {
    } else if j <= 12 {
    } else {
    }
  }

  /** The pins at every edge of the first frame: which are high after edge `k`. */
  lemma FrameTimes(n: nat, k: nat, b: nat)
    requires k <= 24 * n && b < 16
    ensures var j := k % 24;
            var vertical := if j <= 1 && k < 24 then {} else if 2 <= j <= 12 then {0, 2} else {1, 3, 4};
            var horizontal := if 4 <= j <= 8 || 15 <= j <= 19 then {8, 10, 11}
                              else if k <= 3 then {} else {9, 12, 13, 14};
            Run(n, RESET, k).trace.word[b] == (b in vertical + horizontal)
  {
    hide Next, Run, Downs;
    var i, j := k / 24, k % 24;
    var r := Run(n, RESET, 24 * i);
    DownsSteps(n, RESET, i);
    FrameWordAt(i, b);
    RunAdd(n, RESET, 24 * i, j);
    assert k == 24 * i + j;
    EdgeInFrame(n, r, i > 0, j, b);
  }

  lemma EdgeInFrame(n: nat, r: Regs, later: bool, j: nat, b: nat)
    requires r.stack == [FRAME] && Quiet(r) && j < 24 && b < 16 && (j > 0 ==> r.frameDowns < n)
    requires r.trace.word[b] == (later && b in {1, 3, 4, 9, 12, 13, 14})
    ensures Run(n, r, j).trace.word[b] ==
            if j <= 1 then later && b in {1, 3, 4, 9, 12, 13, 14} else
            (b in (if j <= 12 then {0, 2} else {1, 3, 4}) ||
             b in (if 4 <= j <= 8 || 15 <= j <= 19 then {8, 10, 11}
                   else if j <= 3 && !later then {} else {9, 12, 13, 14}))
  {
    hide Next, Run;
    RunZero(n, r);
    if j > 0 {
      FrameEdge(n, r);
      RunOneThen(n, r, j - 1);
      RunZero(n, Next(n, r));
      if j > 1 {
        DownPins(n, Next(n, r), later, j, b);
      }
    }
  }

  /** A whole frame takes 24n+1 edges and does what frame() does. */
  lemma FrameSteps(n: nat, r: Regs)
    requires r.stack == [FRAME] && Quiet(r) && r.frameDowns == 0
    ensures Run(n, r, 24 * n + 1) ==
            r.(stack := [READOUT], ft := r.ft || n > 0, trace := Frame(n, r.trace))
  {
    hide Next, FrameEnd;
    DownsSteps(n, r, n);
    FrameEdge(n, Run(n, r, 24 * n));
    RunNext(n, r, 24 * n);
  }

  lemma CallPixel(n: nat, r: Regs)
    requires r.stack != [] && r.Top() == ROW && r.rowDown && Quiet(r) && r.rowPixels < n
    ensures Run(n, r, 9) == r.(rowPixels := r.rowPixels + 1, trace := Pixel(r.trace))
  {
    hide Next, Pixel;
    RowEdge(n, r);
    PixelSteps(n, Next(n, r));
    RunOneThen(n, r, 8);
  }

  lemma {:induction false} PixelsSteps(n: nat, r: Regs, k: nat)
    requires r.stack != [] && r.Top() == ROW && r.rowDown && Quiet(r) && r.rowPixels + k <= n
    ensures Run(n, r, 9 * k) == r.(rowPixels := r.rowPixels + k, trace := Pixels(r.trace, k))
  {
    hide Next, Pixel;
    if k == 0 {
    } else {
      PixelsSteps(n, r, k - 1);
      CallPixel(n, Run(n, r, 9 * (k - 1)));
      RunAdd(n, r, 9 * (k - 1), 9);
    }
  }

  lemma RowDownSteps(n: nat, r: Regs)
    requires r.stack != [] && r.Top() == ROW && !r.rowDown && Quiet(r)
    ensures Run(n, r, 20) == r.(ft := false, rowDown := true, trace := Down(r.trace, false))
  {
    hide Next, Down;
    RowEdge(n, r);
    DownSteps(n, Next(n, r));
    RunOneThen(n, r, 19);
  }

  /** A row takes 9n+21 edges and does what row() does. */
  lemma RowSteps(n: nat, r: Regs)
    requires r.stack != [] && r.Top() == ROW && !r.rowDown && Quiet(r) && r.rowPixels == 0
    ensures Run(n, r, 9 * n + 21) == r.Pop().(ft := false, trace := Row(n, r.trace))
  {
    var r3 := r.(ft := false, rowDown := true, rowPixels := n, trace := Row(n, r.trace));
    hide Next, Down, Pixels;
    RowEdge(n, r3);
    RowDownSteps(n, r);
    PixelsSteps(n, Run(n, r, 20), n);
    RunAdd(n, r, 20, 9 * n);
    assert Run(n, r, 20 + 9 * n) == r3;
    RunNext(n, r, 20 + 9 * n);
  }

  lemma CallRow(n: nat, r: Regs)
    requires r.stack == [READOUT] && !r.rowDown && Quiet(r) && r.rowPixels == 0 && r.readoutRows < n
    ensures Run(n, r, 9 * n + 22) == r.(readoutRows := r.readoutRows + 1, ft := false, trace := Row(n, r.trace))
  {
    hide Next, Row;
    ReadoutEdge(n, r);
    RowSteps(n, Next(n, r));
    RunOneThen(n, r, 9 * n + 21);
  }

  function RowsEdges(n: nat, k: nat): nat {
    k * (9 * n + 22)
  }

  lemma {:induction false} RowsSteps(n: nat, r: Regs, k: nat)
    requires r.stack == [READOUT] && !r.rowDown && Quiet(r) && r.rowPixels == 0
    requires r.readoutRows + k <= n
    ensures Run(n, r, RowsEdges(n, k)) ==
            r.(readoutRows := r.readoutRows + k, ft := r.ft && k == 0, trace := Rows(n, r.trace, k))
  {
    hide Next, Row;
    if k == 0 {
    } else {
      RowsSteps(n, r, k - 1);
      var m := RowsEdges(n, k - 1);
      assert RowsEdges(n, k) == m + (9 * n + 22);
      CallRow(n, Run(n, r, m));
      RunAdd(n, r, m, 9 * n + 22);
    }
  }

  /** A READOUT entered with `readoutRows` rows already counted clocks only the
      remaining ones, and returns to FRAME. */
  lemma ReadoutSteps(n: nat, r: Regs)
    requires r.stack == [READOUT] && !r.rowDown && Quiet(r) && r.rowPixels == 0
    requires r.readoutRows <= n && r.frameDowns == 0
    ensures var k := n - r.readoutRows;
            Run(n, r, RowsEdges(n, k) + 1) ==
            r.(stack := [FRAME], readoutRows := n, ft := r.ft && k == 0, trace := Rows(n, r.trace, k))
  {
    hide Next;
    var k := n - r.readoutRows;
    RowsSteps(n, r, k);
    ReadoutEdge(n, Run(n, r, RowsEdges(n, k)));
    RunNext(n, r, RowsEdges(n, k));
  }

  // ---- The whole program ----

  function FirstCycle(n: nat): nat {
    24 * n + 1 + RowsEdges(n, n) + 1
  }

  /** The machine back at FRAME after its first pass, with trace `t`. */
  function AtFrame(n: nat, t: Trace): Regs {
    Regs([FRAME], false, false, 0, 0, 0, 0, n, 0, t)
  }

  /** Refinement: from reset, the stack machine makes the pin assignments of
      frame() followed by readout(), in order, and is then back at FRAME. */
  lemma FirstPass(n: nat)
    ensures Run(n, RESET, FirstCycle(n)) == AtFrame(n, Readout(n, Frame(n, RESET.trace)))
  {
    hide Next, Run, RowsEdges, Frame, Rows;
    var f := 24 * n + 1;
    var r := Regs([READOUT], n > 0, false, 0, 0, 0, 0, 0, 0, Frame(n, RESET.trace));
    FrameSteps(n, RESET);
    assert Run(n, RESET, f) == r;
    ReadoutSteps(n, r);
    RunAdd(n, RESET, f, RowsEdges(n, n) + 1);
  }

  lemma FirstCycleLength(n: nat)
    ensures FirstCycle(n) == 9 * n * n + 46 * n + 2
    ensures FirstCycle(1280) == 14_804_482
  {
    calc {
      RowsEdges(n, n);
      n * (9 * n + 22);
      n * (9 * n) + n * 22;
      9 * n * n + 22 * n;
    }
  }

  /** A later pass: the frame, then one edge in an empty READOUT. */
  lemma LaterPass(n: nat, r: Regs)
    requires r.stack == [FRAME] && Quiet(r) && !r.rowDown && r.rowPixels == 0
    requires r.frameDowns == 0 && r.readoutRows == n
    ensures Run(n, r, 24 * n + 2) == r.(ft := r.ft || n > 0, trace := Frame(n, r.trace))
  {
    assert RowsEdges(n, 0) == 0;
    hide Next, RowsEdges, Frame;
    FrameSteps(n, r);
    ReadoutSteps(n, Run(n, r, 24 * n + 1));
    RunAdd(n, r, 24 * n + 1, 1);
  }

  /** `readout_rows` is never cleared, so every later READOUT is empty: after the
      first pass the machine repeats frame() alone, every 24n+2 edges, forever. */
  lemma {:induction false} LaterPasses(n: nat, k: nat)
    ensures var t := Frames(n, Readout(n, Frame(n, RESET.trace)), k);
            Run(n, RESET, FirstCycle(n) + k * (24 * n + 2)) ==
            AtFrame(n, t).(ft := k > 0 && n > 0)
  {
    hide Next, FirstCycle, Frame, Readout;
    if k == 0 {
      FirstPass(n);
    } else {
      LaterPasses(n, k - 1);
      var c := 24 * n + 2;
      var m := FirstCycle(n) + (k - 1) * c;
      LaterPass(n, Run(n, RESET, m));
      RunAdd(n, RESET, m, c);
      assert (k - 1) * c + c == k * c;
    }
  }

  lemma LogKept(n: nat, r: Regs)
    ensures r.trace.log <= Next(n, r).trace.log
  {
    hide PixelRise, PixelFall, DownRise, DownFall, FrameEnd;
  }

  /** At every edge of every run, what the pins have done so far is a prefix of
      what they will have done later. */
  lemma {:induction false} LogGrows(n: nat, r: Regs, j: nat, k: nat)
    requires j <= k
    ensures Run(n, r, j).trace.log <= Run(n, r, k).trace.log
  {
    hide Next;
    if j == k {
    } else {
      LogGrows(n, r, j, k - 1);
      LogKept(n, Run(n, r, k - 1));
    }
  }

  /** At every edge of the first pass the pins have followed frame(); readout(). */
  lemma EveryEdgeFollows(n: nat, k: nat)
    requires k <= FirstCycle(n)
    ensures Run(n, RESET, k).trace.log <= Readout(n, Frame(n, RESET.trace)).log
  {
    hide Next, FirstCycle, Frame, Readout;
    FirstPass(n);
    LogGrows(n, RESET, k, FirstCycle(n));
  }

  /** At every edge at all, they have followed frame(); readout(); and then
      frame() over and over. */
  lemma EveryEdgeForever(n: nat, k: nat)
    ensures exists m :: Run(n, RESET, k).trace.log
                        <= Frames(n, Readout(n, Frame(n, RESET.trace)), m).log
  {
    hide Next, FirstCycle, Frame, Readout;
    LaterPasses(n, k);
    var far := FirstCycle(n) + k * (24 * n + 2);
    assert k <= far;
    LogGrows(n, RESET, k, far);
  }
}
