/** The CCD clock word shared by the two clock simulators, and the groups of
    pin assignments both of them make.

    A word holds one bit per CCD pin, indexed by bit number: bits 0 to 7 are
    channel A and bits 8 to 15 are channel B. */
module Pins {

  const P1VI := 0
  const P2VI := 1
  const P1VS := 2
  const P2VS := 3
  const TG := 4
  const P1H := 8
  const P3H := 9
  const P2A4BH := 10
  const P4A2BH := 11
  const P2C4DH := 12
  const P4C2DH := 13
  const SG := 14

  type Word = w: seq<bool> | |w| == 16 witness seq(16, _ => false)

  function AllLow(): Word {
    seq(16, _ => false)
  }

  const ZERO: Word := AllLow()

  /** The word `w` with the pins of `up` driven high and those of `down` driven
      low. */
  function Drive(w: Word, up: set<nat>, down: set<nat>): (r: Word)
  {
    seq(16, i requires 0 <= i < 16 => i in up || (i !in down && w[i]))
  }

  function PixelRise(w: Word): Word {
    Drive(w, {P1H, P2A4BH, P4A2BH}, {P3H, P2C4DH, P4C2DH, SG})
  }

  function PixelFall(w: Word): Word {
    Drive(w, {P3H, P2C4DH, P4C2DH, SG}, {P1H, P2A4BH, P4A2BH})
  }

  function DownRise(w: Word): Word {
    Drive(w, {P1VI, P1VS}, {P2VI, P2VS, TG})
  }

  function DownFall(w: Word): Word {
    Drive(w, {P2VI, P2VS, TG}, {P1VI, P1VS})
  }

  function FrameEnd(w: Word): Word {
    Drive(w, {}, {P2VI})
  }

  /** The groups as the programs make them, one pin at a time. */
  lemma PinByPin(w: Word)
    ensures PixelRise(w) == w[P1H := true][P2A4BH := true][P4A2BH := true]
                             [P3H := false][P2C4DH := false][P4C2DH := false][SG := false]
    ensures PixelFall(w) == w[P1H := false][P2A4BH := false][P4A2BH := false]
                             [P3H := true][P2C4DH := true][P4C2DH := true][SG := true]
    ensures DownRise(w) == w[P1VI := true][P1VS := true][P2VI := false][P2VS := false][TG := false]
    ensures DownFall(w) == w[P1VI := false][P1VS := false][P2VI := true][P2VS := true][TG := true]
    ensures FrameEnd(w) == w[P2VI := false]
  {}

  /** And by pin numbers. */
  lemma PinNumbers(w: Word)
    ensures PixelRise(w) == w[8 := true][10 := true][11 := true][9 := false][12 := false][13 := false][14 := false]
    ensures PixelFall(w) == w[8 := false][10 := false][11 := false][9 := true][12 := true][13 := true][14 := true]
    ensures DownRise(w) == w[0 := true][2 := true][1 := false][3 := false][4 := false]
    ensures DownFall(w) == w[0 := false][2 := false][1 := true][3 := true][4 := true]
    ensures FrameEnd(w) == w[1 := false]
  {
    PinByPin(w);
  }
}

/** What the recursive clock program does to the pins, as a trace: the current
    word, and the word after each group of pin assignments so far. */
module PinTrace {
  import opened Pins

  datatype Trace = Trace(word: Word, log: seq<Word>) {
    function Set(w: Word): Trace {
      Trace(w, log + [w])
    }
  }

  function Pixel(t: Trace): Trace {
    var rise := t.Set(PixelRise(t.word));
    rise.Set(PixelFall(rise.word))
  }

  function PixelMaybe(t: Trace, ft: bool): Trace {
    if ft then Pixel(t) else t
  }

  function Down(t: Trace, ft: bool): Trace {
    var rise := PixelMaybe(t.Set(DownRise(t.word)), ft);
    PixelMaybe(rise.Set(DownFall(rise.word)), ft)
  }

  function Downs(t: Trace, k: nat): Trace {
    if k == 0 then t else Down(Downs(t, k - 1), true)
  }

  function Pixels(t: Trace, k: nat): Trace {
    if k == 0 then t else Pixel(Pixels(t, k - 1))
  }

  function Frame(n: nat, t: Trace): Trace {
    var t' := Downs(t, n);
    t'.Set(FrameEnd(t'.word))
  }

  function Row(n: nat, t: Trace): Trace {
    Pixels(Down(t, false), n)
  }

  function Rows(n: nat, t: Trace, k: nat): Trace {
    if k == 0 then t else Row(n, Rows(n, t, k - 1))
  }

  function Readout(n: nat, t: Trace): Trace {
    Rows(n, t, n)
  }

  function Frames(n: nat, t: Trace, k: nat): Trace {
    if k == 0 then t else Frame(n, Frames(n, t, k - 1))
  }

  // ---- What is logged ----

  /** A pixel logs its two words, by pin number. */
  lemma PixelLog(t: Trace)
    ensures var w := t.word;
            var up: Word := w[8 := true][10 := true][11 := true][9 := false][12 := false][13 := false][14 := false];
            var down: Word := w[8 := false][10 := false][11 := false][9 := true][12 := true][13 := true][14 := true];
            Pixel(t) == Trace(down, t.log + [up, down])
  {
    PinNumbers(t.word);
    PinNumbers(PixelRise(t.word));
    hide PixelRise, PixelFall;
  }

  /** A transfer logs two words, or six with its pixels. */
  lemma DownLog(t: Trace, ft: bool)
    ensures var r: Word := t.word[0 := true][2 := true][1 := false][3 := false][4 := false];
            var up: Word := r[8 := true][10 := true][11 := true][9 := false][12 := false][13 := false][14 := false];
            var down: Word := r[8 := false][10 := false][11 := false][9 := true][12 := true][13 := true][14 := true];
            var f: Word := (if ft then down else r)[0 := false][2 := false][1 := true][3 := true][4 := true];
            var up': Word := f[8 := true][10 := true][11 := true][9 := false][12 := false][13 := false][14 := false];
            var down': Word := f[8 := false][10 := false][11 := false][9 := true][12 := true][13 := true][14 := true];
            Down(t, ft) == Trace(if ft then down' else f,
                                 t.log + if ft then [r, up, down, f, up', down'] else [r, f])
  {
    var rise := t.Set(DownRise(t.word));
    PinNumbers(t.word);
    PixelLog(rise);
    var mid := PixelMaybe(rise, ft);
    PinNumbers(mid.word);
    PixelLog(mid.Set(DownFall(mid.word)));
    hide PixelRise, PixelFall, DownRise, DownFall, Pixel;
  }

  /** The pins a transfer of the first frame leaves high. */
  lemma {:induction false} FrameWordAt(k: nat, b: nat)
    requires b < 16
    ensures Downs(Trace(ZERO, []), k).word[b] == (k > 0 && b in {1, 3, 4, 9, 12, 13, 14})
  {
    if k == 0 {
    } else {
      FrameWordAt(k - 1, b);
      DownLog(Downs(Trace(ZERO, []), k - 1), true);
      hide Down;
    }
  }

  /** How much is logged: a frame 6n+1 words, a readout n(2n+2). */
  lemma {:induction false} DownsLogged(t: Trace, k: nat)
    ensures |Downs(t, k).log| == |t.log| + 6 * k
  {
    if k == 0 {
    } else {
      hide Down;
      DownsLogged(t, k - 1);
      DownLog(Downs(t, k - 1), true);
    }
  }

  lemma {:induction false} PixelsLogged(t: Trace, k: nat)
    ensures |Pixels(t, k).log| == |t.log| + 2 * k
  {
    if k == 0 {
    } else {
      hide Pixel;
      PixelsLogged(t, k - 1);
      PixelLog(Pixels(t, k - 1));
    }
  }

  lemma {:induction false} RowsLogged(n: nat, t: Trace, k: nat)
    ensures |Rows(n, t, k).log| == |t.log| + k * (2 * n + 2)
  {
    if k == 0 {
    } else {
      hide Down, Pixels;
      var before := Rows(n, t, k - 1);
      RowsLogged(n, t, k - 1);
      DownLog(before, false);
      PixelsLogged(Down(before, false), n);
    }
  }

  lemma FirstPassLogged(n: nat, t: Trace)
    ensures |Frame(n, t).log| == |t.log| + 6 * n + 1
    ensures |Readout(n, Frame(n, t)).log| == |t.log| + 6 * n + 1 + n * (2 * n + 2)
  {
    DownsLogged(t, n);
    RowsLogged(n, Frame(n, t), n);
  }
}
