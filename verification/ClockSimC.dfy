/** Bit n of a C int, and the `high` and `low` macros, in terms of words. */
module CBits {
  import opened Pins

  function Bit(n: nat): bv32
    requires n < 16
  {
    1 << n
  }

  function BitA(n: nat): bv32
    requires n < 8
  {
    Bit(n)
  }

  function BitB(n: nat): bv32
    requires n < 8
  {
    Bit(n + 8)
  }

  predicate On(x: bv32, i: nat)
    requires i < 16
  {
    x & Bit(i) != 0
  }

  /** The low sixteen bits of `x`, bit 0 first. */
  function Bits(x: bv32): Word {
    seq(16, i requires 0 <= i < 16 => On(x, i))
  }

  lemma BitTable()
    ensures Bit(0) == 0x1 && Bit(1) == 0x2 && Bit(2) == 0x4 && Bit(3) == 0x8
    ensures Bit(4) == 0x10 && Bit(5) == 0x20 && Bit(6) == 0x40 && Bit(7) == 0x80
    ensures Bit(8) == 0x100 && Bit(9) == 0x200 && Bit(10) == 0x400 && Bit(11) == 0x800
    ensures Bit(12) == 0x1000 && Bit(13) == 0x2000 && Bit(14) == 0x4000 && Bit(15) == 0x8000
  {}

  lemma BitsDisjoint(i: nat, j: nat)
    requires i < 16 && j < 16
    ensures Bit(i) != 0
    ensures i != j ==> Bit(i) & Bit(j) == 0
  {
    BitTable();
  }

  lemma SameMask(x: bv32, m: bv32)
    ensures (x | m) & m == m
    ensures (x & !m) & m == 0
  {}

  lemma OtherMask(x: bv32, m: bv32, k: bv32)
    requires m & k == 0
    ensures (x | m) & k == x & k
    ensures (x & !m) & k == x & k
  {}

  function High(state: bv32, m: bv32): bv32 {
    state | m
  }

  function Low(state: bv32, m: bv32): bv32 {
    state & !m
  }

  lemma SameBit(x: bv32, i: nat)
    requires i < 16
    ensures On(High(x, Bit(i)), i) && !On(Low(x, Bit(i)), i)
  {
    BitsDisjoint(i, i);
    hide Bit;
    SameMask(x, Bit(i));
  }

  lemma OtherBitHigh(x: bv32, i: nat, j: nat)
    requires i < 16 && j < 16 && i != j
    ensures On(High(x, Bit(i)), j) == On(x, j)
  {
    BitsDisjoint(i, j);
    hide Bit;
    OtherMask(x, Bit(i), Bit(j));
  }

  lemma OtherBitLow(x: bv32, i: nat, j: nat)
    requires i < 16 && j < 16 && i != j
    ensures On(Low(x, Bit(i)), j) == On(x, j)
  {
    BitsDisjoint(i, j);
    hide Bit;
    OtherMask(x, Bit(i), Bit(j));
  }

  lemma SetBit(x: bv32, i: nat)
    requires i < 16
    ensures Bits(High(x, Bit(i))) == Bits(x)[i := true]
    ensures Bits(Low(x, Bit(i))) == Bits(x)[i := false]
  {
    hide On, Bit, High, Low;
    forall j | 0 <= j < 16
      ensures Bits(High(x, Bit(i)))[j] == Bits(x)[i := true][j]
      ensures Bits(Low(x, Bit(i)))[j] == Bits(x)[i := false][j]
    {
      if i == j { SameBit(x, i); } else { OtherBitHigh(x, i, j); OtherBitLow(x, i, j); }
    }
  }

  /** The bits `step` prints on channels A and B. */
  predicate OnA(x: bv32, n: nat)
    requires n < 8
  {
    x & BitA(n) != 0
  }

  predicate OnB(x: bv32, n: nat)
    requires n < 8
  {
    x & BitB(n) != 0
  }

  lemma Channels(x: bv32, n: nat)
    requires n < 8
    ensures OnA(x, n) == Bits(x)[n] && OnB(x, n) == Bits(x)[n + 8]
  {
    hide Bit;
  }
}

/** The recursive clock program of clocksim.c: one global word, changed by
    macros, printed line by line by `step`. */
module ClockSimC {
  import opened Pins
  import opened PinTrace
  import opened Waveform
  import opened Sends
  import opened CBits

  lemma Regroup<T>(s: seq<T>, x: T, y: T, rest: seq<T>)
    ensures s + ([x, y] + rest) == s + [x] + [y] + rest
  {}

  /** Line `l` of word `k` of a frame printed from the start, after the idle line. */
  lemma WordLineAt(n: nat, k: nat, l: nat)
    requires k < 18 * n && l < 16
    ensures var lines, words := [IDLE] + Waves(FrameSends(Trace(ZERO, []), n)), FrameSends(Trace(ZERO, []), n);
            |lines| == 1 + 288 * n && |words| == 18 * n &&
            lines[1 + 16 * k + l] == Line(l % 2 == 1, words[k][7 - l / 2], words[k][15 - l / 2], l != 15)
  {
    hide FrameSends, Waves, WordLines;
    var words := FrameSends(Trace(ZERO, []), n);
    FrameSendCount(Trace(ZERO, []), n);
    WordLinesAt(words[k]);
    WavesLength(words);
    WavesBlock(words, k);
    assert Waves(words)[16 * k + l] == Waves(words)[16 * k..16 * k + 16][l];
  }

  /** Line `m`, by the pins that are high. */
  lemma FrameLine(n: nat, m: nat)
    requires 1 <= m <= 288 * n
    ensures var lines := [IDLE] + Waves(FrameSends(Trace(ZERO, []), n));
            var k, l := (m - 1) / 16, (m - 1) % 16;
            var vertical := if k % 18 < 9 then {0, 2} else {1, 3, 4};
            var horizontal := if 1 <= k % 9 <= 4 then {8, 10, 11} else if k == 0 then {} else {9, 12, 13, 14};
            var high := vertical + horizontal;
            |lines| == 1 + 288 * n && lines[m] == Line(l % 2 == 1, 7 - l / 2 in high, 15 - l / 2 in high, l != 15)
  {
    hide FrameSends, Waves, WordLines;
    var k, l := (m - 1) / 16, (m - 1) % 16;
    WordLineAt(n, k, l);
    FrameSendsAre(n, k, 7 - l / 2);
    FrameSendsAre(n, k, 15 - l / 2);
  }

  /** A pixel as it is printed, by pin number. */
  lemma PixelPrints(before: seq<Line>, t: Trace)
    ensures var w := t.word;
            var up: Word := w[8 := true][10 := true][11 := true][9 := false][12 := false][13 := false][14 := false];
            var down: Word := w[8 := false][10 := false][11 := false][9 := true][12 := true][13 := true][14 := true];
            Prints(before, before + Waves(PixelSends(t)), [w, up, up, up, up, down, down, down, down])
  {
    hide PixelSends, Waves, Prints;
    PixelSendsAre(t);
    WavesPrint(before, PixelSends(t));
  }

  /** A transfer as it is printed, by pin number. */
  lemma DownPrints(before: seq<Line>, t: Trace, ft: bool)
    ensures var r: Word := t.word[0 := true][2 := true][1 := false][3 := false][4 := false];
            var up: Word := r[8 := true][10 := true][11 := true][9 := false][12 := false][13 := false][14 := false];
            var down: Word := r[8 := false][10 := false][11 := false][9 := true][12 := true][13 := true][14 := true];
            var f: Word := down[0 := false][2 := false][1 := true][3 := true][4 := true];
            var up': Word := f[8 := true][10 := true][11 := true][9 := false][12 := false][13 := false][14 := false];
            var down': Word := f[8 := false][10 := false][11 := false][9 := true][12 := true][13 := true][14 := true];
            ft ==> Prints(before, before + Waves(DownSends(t, ft)),
                          [r, up, up, up, up, down, down, down, down,
                           f, up', up', up', up', down', down', down', down'])
    ensures var r: Word := t.word[0 := true][2 := true][1 := false][3 := false][4 := false];
            var f: Word := r[0 := false][2 := false][1 := true][3 := true][4 := true];
            !ft ==> Prints(before, before + Waves(DownSends(t, ft)),
                           [r, r, r, r, r, r, r, r, r, f, f, f, f, f, f, f, f, f])
  {
    hide DownSends, Waves, Prints;
    DownSendsAre(t, ft);
    WavesPrint(before, DownSends(t, ft));
  }

  class Program {
    const n: nat          // rows and columns, 1280 in the source
    var state: bv32
    var lines: seq<Line>  // what has been printed
    ghost var log: seq<Word>

    ghost function View(): Trace
      reads this
    {
      Trace(Bits(state), log)
    }

    constructor (n: nat)
      ensures this.n == n && View() == Trace(ZERO, []) && lines == []
    {
      this.n, state, lines, log := n, 0, [], [];
      new;
      assert Bits(0) == ZERO;
    }

    method High(i: nat)
      requires i < 16
      modifies `state
      ensures Bits(state) == old(Bits(state))[i := true]
    {
      SetBit(state, i);
      state := CBits.High(state, Bit(i));
    }

    method Low(i: nat)
      requires i < 16
      modifies `state
      ensures Bits(state) == old(Bits(state))[i := false]
    {
      SetBit(state, i);
      state := CBits.Low(state, Bit(i));
    }

    /** Prints the waveform of the current word. */
    method Step()
      modifies `lines
      ensures lines == old(lines) + Waves([View().word])
    {
      ghost var w := Bits(state);
      assert WordFrom(w, 0) == [];
      hide Bits, OnA, OnB, WordFrom;
      var bit := 8;
      ghost var rest := WordLines(w);
      while bit > 0
        invariant 0 <= bit <= 8
        invariant rest == WordFrom(w, bit)
        invariant lines + rest == old(lines) + WordLines(w)
      {
        bit := bit - 1;
        PrintBit(bit);
        rest := WordFrom(w, bit);
      }
      assert lines + [] == lines;
      WavesOne(w);
    }

    /** The two lines of a bit. */
    method PrintBit(bit: nat)
      requires bit < 8
      modifies `lines
      ensures lines + WordFrom(Bits(state), bit) == old(lines) + WordFrom(Bits(state), bit + 1)
    {
      hide Bits, OnA, OnB, WordFrom;
      Channels(state, bit);
      WordFromBit(Bits(state), bit);
      var a := OnA(state, bit);
      var b := OnB(state, bit);
      var strobe := true;
      lines := lines + [Line(false, a, b, strobe)];
      if bit == 0 {
        strobe := false;
      }
      lines := lines + [Line(true, a, b, strobe)];
      Regroup(old(lines), Line(false, a, b, true), Line(true, a, b, strobe), WordFrom(Bits(state), bit));
    }

    method Steps(k: nat)
      modifies `lines
      ensures lines == old(lines) + Waves(Repeat(View().word, k))
    {
      hide Bits, Waves, PixelRise, PixelFall, DownRise, DownFall, FrameEnd;
      WavesNone();
      assert Repeat(View().word, 0) == [];
      var i := 0;
      while i < k
        invariant 0 <= i <= k
        invariant lines == old(lines) + Waves(Repeat(View().word, i))
      {
        Step();
        WavesConcat(Repeat(View().word, i), [View().word]);
        assert Repeat(View().word, i) + [View().word] == Repeat(View().word, i + 1);
        i := i + 1;
      }
    }

    method Pixel()
      modifies this
      ensures View() == PinTrace.Pixel(old(View()))
      ensures lines == old(lines) + Waves(PixelSends(old(View())))
      ensures var w := old(View().word);
              var up: Word := w[8 := true][10 := true][11 := true][9 := false][12 := false][13 := false][14 := false];
              var down: Word := w[8 := false][10 := false][11 := false][9 := true][12 := true][13 := true][14 := true];
              Prints(old(lines), lines, [w, up, up, up, up, down, down, down, down])
    {
      hide Bits, Waves, PixelRise, PixelFall, DownRise, DownFall, FrameEnd, Prints;
      WavesNone();
      ghost var t := View();
      ghost var w := t.word;
      Step();
      High(P1H); High(P2A4BH); High(P4A2BH);
      Low(P3H); Low(P2C4DH); Low(P4C2DH); Low(SG);
      PinByPin(w);
      log := log + [Bits(state)];
      Steps(4);
      Low(P1H); Low(P2A4BH); Low(P4A2BH);
      High(P3H); High(P2C4DH); High(P4C2DH); High(SG);
      PinByPin(PixelRise(w));
      log := log + [Bits(state)];
      Steps(4);
      WavesConcat([w], Repeat(PixelRise(w), 4));
      WavesConcat([w] + Repeat(PixelRise(w), 4), Repeat(PixelFall(PixelRise(w)), 4));
      PixelPrints(old(lines), t);
    }

    method PixelMaybe(ft: bool)
      modifies this
      ensures View() == PinTrace.PixelMaybe(old(View()), ft)
      ensures lines == old(lines) + Waves(PixelMaybeSends(old(View()), ft))
      ensures var w := old(View().word);
              !ft ==> Prints(old(lines), lines, [w, w, w, w, w, w, w, w, w])
    {
      hide Bits, Waves, PixelRise, PixelFall, DownRise, DownFall, FrameEnd;
      WavesNone();
      if ft {
        Pixel();
      } else {
        Steps(9);
        NineTimes(View().word);
        WavesPrint(old(lines), Repeat(View().word, 9));
      }
    }

    method Down(ft: bool)
      modifies this
      ensures View() == PinTrace.Down(old(View()), ft)
      ensures lines == old(lines) + Waves(DownSends(old(View()), ft))
      ensures var w := old(View().word);
              var r: Word := w[0 := true][2 := true][1 := false][3 := false][4 := false];
              var up: Word := r[8 := true][10 := true][11 := true][9 := false][12 := false][13 := false][14 := false];
              var down: Word := r[8 := false][10 := false][11 := false][9 := true][12 := true][13 := true][14 := true];
              var f: Word := down[0 := false][2 := false][1 := true][3 := true][4 := true];
              var up': Word := f[8 := true][10 := true][11 := true][9 := false][12 := false][13 := false][14 := false];
              var down': Word := f[8 := false][10 := false][11 := false][9 := true][12 := true][13 := true][14 := true];
              ft ==> Prints(old(lines), lines, [r, up, up, up, up, down, down, down, down,
                                                f, up', up', up', up', down', down', down', down'])
      ensures var w := old(View().word);
              var r: Word := w[0 := true][2 := true][1 := false][3 := false][4 := false];
              var f: Word := r[0 := false][2 := false][1 := true][3 := true][4 := true];
              !ft ==> Prints(old(lines), lines, [r, r, r, r, r, r, r, r, r, f, f, f, f, f, f, f, f, f])
    {
      hide Bits, Waves, PixelRise, PixelFall, DownRise, DownFall, FrameEnd, Prints;
      hide PinTrace.PixelMaybe, PixelMaybeSends;
      WavesNone();
      ghost var t := View();
      High(P1VI); High(P1VS);
      Low(P2VI); Low(P2VS); Low(TG);
      PinByPin(t.word);
      log := log + [Bits(state)];
      ghost var rise := View();
      PixelMaybe(ft);
      ghost var mid := View();
      Low(P1VI); Low(P1VS);
      High(P2VI); High(P2VS); High(TG);
      PinByPin(mid.word);
      log := log + [Bits(state)];
      ghost var fall := View();
      PixelMaybe(ft);
      WavesConcat(PixelMaybeSends(rise, ft), PixelMaybeSends(fall, ft));
      DownPrints(old(lines), t, ft);
    }

    method Frame()
      modifies this
      ensures View() == PinTrace.Frame(n, old(View()))
      ensures lines == old(lines) + Waves(FrameSends(old(View()), n))
    {
      hide Bits, Waves, PixelRise, PixelFall, DownRise, DownFall, FrameEnd;
      hide PinTrace.Down, DownSends, Prints;
      WavesNone();
      ghost var t := View();
      var i := 0;
      while i < n
        invariant 0 <= i <= n
        invariant View() == Downs(t, i)
        invariant lines == old(lines) + Waves(FrameSends(t, i))
      {
        WavesConcat(FrameSends(t, i), DownSends(View(), true));
        Down(true);
        i := i + 1;
      }
      Low(P2VI);
      PinByPin(Downs(t, n).word);
      log := log + [Bits(state)];
    }

    method Row()
      modifies this
      ensures View() == PinTrace.Row(n, old(View()))
      ensures lines == old(lines) + Waves(RowSends(n, old(View())))
    {
      hide Bits, Waves, PixelRise, PixelFall, DownRise, DownFall, FrameEnd;
      WavesNone();
      ghost var t := View();
      Down(false);
      ghost var t1 := View();
      assert lines == old(lines) + (Waves(DownSends(t, false)) + Waves([]));
      var i := 0;
      while i < n
        invariant 0 <= i <= n
        invariant View() == Pixels(t1, i)
        invariant lines == old(lines) + (Waves(DownSends(t, false)) + Waves(PixelsSends(t1, i)))
      {
        WavesConcat(PixelsSends(t1, i), PixelSends(View()));
        Pixel();
        i := i + 1;
      }
      WavesConcat(DownSends(t, false), PixelsSends(t1, n));
    }

    method Readout()
      modifies this
      ensures View() == PinTrace.Readout(n, old(View()))
      ensures lines == old(lines) + Waves(ReadoutSends(n, old(View()), n))
    {
      hide Bits, Waves, PinTrace.Row, RowSends;
      WavesNone();
      ghost var t := View();
      var i := 0;
      while i < n
        invariant 0 <= i <= n
        invariant View() == Rows(n, t, i)
        invariant lines == old(lines) + Waves(ReadoutSends(n, t, i))
      {
        WavesConcat(ReadoutSends(n, t, i), RowSends(n, View()));
        Row();
        i := i + 1;
      }
    }

    /** The program as it stands: an idle line, then one frame. */
    method PrintFrame()
      requires View() == Trace(ZERO, []) && lines == []
      modifies this
      ensures View() == PinTrace.Frame(n, Trace(ZERO, []))
      ensures lines == [IDLE] + Waves(FrameSends(Trace(ZERO, []), n))
      ensures |lines| == 1 + 288 * n && lines[0] == Line(false, false, false, false)
      ensures forall m :: 1 <= m <= 288 * n ==>
                var k, l := (m - 1) / 16, (m - 1) % 16;
                var vertical := if k % 18 < 9 then {0, 2} else {1, 3, 4};
                var horizontal := if 1 <= k % 9 <= 4 then {8, 10, 11} else if k == 0 then {} else {9, 12, 13, 14};
                var high := vertical + horizontal;
                lines[m] == Line(l % 2 == 1, 7 - l / 2 in high, 15 - l / 2 in high, l != 15)
    {
      lines := lines + [IDLE];
      Frame();
      hide PinTrace.Frame, FrameSends, Waves;
      FrameSendCount(Trace(ZERO, []), n);
      WavesPrint([IDLE], FrameSends(Trace(ZERO, []), n));
      forall m | 1 <= m <= 288 * n
        ensures var k, l := (m - 1) / 16, (m - 1) % 16;
                var vertical := if k % 18 < 9 then {0, 2} else {1, 3, 4};
                var horizontal := if 1 <= k % 9 <= 4 then {8, 10, 11} else if k == 0 then {} else {9, 12, 13, 14};
                var high := vertical + horizontal;
                lines[m] == Line(l % 2 == 1, 7 - l / 2 in high, 15 - l / 2 in high, l != 15)
      {
        FrameLine(n, m);
      }
    }
  }
}
