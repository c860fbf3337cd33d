/** The four lines between the clock simulator and the acquisition chain, and the
    waveform that carries one word. */
module Waveform {
  import opened Pins

  datatype Line = Line(sclk: bool, a: bool, b: bool, strobe: bool)

  const IDLE := Line(false, false, false, false)

  /** The low `k` bits of both channels, high bit first: each bit is held while
      SCLK rises, and STROBE is low only in the high half of bit 0. */
  function WordFrom(w: Word, k: nat): (lines: seq<Line>)
    requires k <= 8
  {
    if k == 0 then [] else
      [Line(false, w[k - 1], w[k + 7], true), Line(true, w[k - 1], w[k + 7], k != 1)] +
      WordFrom(w, k - 1)
  }

  lemma WordFromBit(w: Word, k: nat)
    requires k < 8
    ensures WordFrom(w, k + 1) ==
            [Line(false, w[k], w[k + 8], true), Line(true, w[k], w[k + 8], k != 0)] + WordFrom(w, k)
  {}

  function WordLines(w: Word): seq<Line> {
    WordFrom(w, 8)
  }

  function Waves(words: seq<Word>): seq<Line> {
    if words == [] then [] else WordLines(words[0]) + Waves(words[1..])
  }

  lemma {:induction false} WavesConcat(x: seq<Word>, y: seq<Word>)
    ensures Waves(x + y) == Waves(x) + Waves(y)
  {
    if x == [] {
      assert x + y == y;
    } else {
      assert (x + y)[0] == x[0] && (x + y)[1..] == x[1..] + y;
      WavesConcat(x[1..], y);
    }
  }

  lemma WavesNone()
    ensures Waves([]) == []
  {}

  lemma WavesOne(w: Word)
    ensures Waves([w]) == WordLines(w)
  {
    assert Waves([w]) == WordLines(w) + Waves([]);
  }

  /** The sixteen lines of a word, one by one. */
  lemma WordLinesAt(w: Word)
    ensures |WordLines(w)| == 16
    ensures forall l :: 0 <= l < 16 ==> WordLines(w)[l] == Line(l % 2 == 1, w[7 - l / 2], w[15 - l / 2], l != 15)
  {
    WordFromAt(w, 8, 0);
    forall l | 0 <= l < 16
      ensures WordLines(w)[l] == Line(l % 2 == 1, w[7 - l / 2], w[15 - l / 2], l != 15)
    {
      WordFromAt(w, 8, l / 2);
      hide WordFrom;
    }
  }

  lemma {:induction false} WordFromAt(w: Word, k: nat, i: nat)
    requires i < k <= 8
    ensures |WordFrom(w, k)| == 2 * k
    ensures WordFrom(w, k)[2 * i] == Line(false, w[k - 1 - i], w[k + 7 - i], true)
    ensures WordFrom(w, k)[2 * i + 1] == Line(true, w[k - 1 - i], w[k + 7 - i], i != k - 1)
  {
    WordFromBit(w, k - 1);
    if i > 0 {
      WordFromAt(w, k - 1, i - 1);
    } else if k > 1 {
      WordFromAt(w, k - 1, 0);
    } else {
      assert WordFrom(w, 0) == [];
    }
    hide WordFrom;
  }

  /** From `before` to `after` the waves of `words` have been printed, block by block. */
  predicate Prints(before: seq<Line>, after: seq<Line>, words: seq<Word>) {
    |after| == |before| + 16 * |words| && after[..|before|] == before &&
    forall j :: 0 <= j < |words| ==> after[|before| + 16 * j..|before| + 16 * j + 16] == WordLines(words[j])
  }

  lemma WavesPrint(before: seq<Line>, words: seq<Word>)
    ensures Prints(before, before + Waves(words), words)
  {
    WavesLength(words);
    forall j | 0 <= j < |words|
      ensures (before + Waves(words))[|before| + 16 * j..|before| + 16 * j + 16] == WordLines(words[j])
    {
      WavesBlock(words, j);
      assert (before + Waves(words))[|before| + 16 * j..|before| + 16 * j + 16] == Waves(words)[16 * j..16 * j + 16];
    }
  }

  lemma {:induction false} WavesLength(words: seq<Word>)
    ensures |Waves(words)| == 16 * |words|
  {
    if words == [] {
    } else {
      WordLinesAt(words[0]);
      WavesLength(words[1..]);
    }
  }

  lemma {:induction false} WavesBlock(words: seq<Word>, j: nat)
    requires j < |words|
    ensures 16 * j + 16 <= |Waves(words)| && Waves(words)[16 * j..16 * j + 16] == WordLines(words[j])
  {
    WavesLength(words);
    WordLinesAt(words[0]);
    hide WordLines;
    if j == 0 {
    } else {
      WavesBlock(words[1..], j - 1);
      assert Waves(words)[16 * j..16 * j + 16] == Waves(words[1..])[16 * (j - 1)..16 * (j - 1) + 16];
    }
  }
}

/** Which words the recursive clock program sends, in order, from the trace it
    has built so far. */
module Sends {
  import opened Pins
  import opened PinTrace

  function Repeat(w: Word, k: nat): seq<Word> {
    seq(k, _ => w)
  }

  function PixelSends(t: Trace): seq<Word> {
    var rise := PixelRise(t.word);
    [t.word] + Repeat(rise, 4) + Repeat(PixelFall(rise), 4)
  }

  function PixelMaybeSends(t: Trace, ft: bool): seq<Word> {
    if ft then PixelSends(t) else Repeat(t.word, 9)
  }

  function DownSends(t: Trace, ft: bool): seq<Word> {
    var rise := t.Set(DownRise(t.word));
    var mid := PixelMaybe(rise, ft);
    PixelMaybeSends(rise, ft) + PixelMaybeSends(mid.Set(DownFall(mid.word)), ft)
  }

  function FrameSends(t: Trace, k: nat): seq<Word> {
    if k == 0 then [] else FrameSends(t, k - 1) + DownSends(Downs(t, k - 1), true)
  }

  function PixelsSends(t: Trace, k: nat): seq<Word> {
    if k == 0 then [] else PixelsSends(t, k - 1) + PixelSends(Pixels(t, k - 1))
  }

  function RowSends(n: nat, t: Trace): seq<Word> {
    DownSends(t, false) + PixelsSends(Down(t, false), n)
  }

  function ReadoutSends(n: nat, t: Trace, k: nat): seq<Word> {
    if k == 0 then [] else ReadoutSends(n, t, k - 1) + RowSends(n, Rows(n, t, k - 1))
  }

  lemma DownSendCount(t: Trace, ft: bool)
    ensures |DownSends(t, ft)| == 18
  {}

  /** frame() sends exactly 18 words for each of its n vertical transfers. */
  lemma {:induction false} FrameSendCount(t: Trace, k: nat)
    ensures |FrameSends(t, k)| == 18 * k
  {
    if k == 0 {
    } else {
      FrameSendCount(t, k - 1);
      DownSendCount(Downs(t, k - 1), true);
    }
  }

  /** row() sends 18 words and nine for each of its n pixels, readout() n rows. */
  lemma {:induction false} PixelsSendCount(t: Trace, k: nat)
    ensures |PixelsSends(t, k)| == 9 * k
  {
    if k == 0 {
    } else {
      PixelsSendCount(t, k - 1);
      PixelSendsAre(Pixels(t, k - 1));
    }
  }

  lemma {:induction false} ReadoutSendCount(n: nat, t: Trace, k: nat)
    ensures |ReadoutSends(n, t, k)| == k * (18 + 9 * n)
  {
    if k == 0 {
    } else {
      ReadoutSendCount(n, t, k - 1);
      DownSendCount(Rows(n, t, k - 1), false);
      PixelsSendCount(Down(Rows(n, t, k - 1), false), n);
      hide DownSends, PixelsSends, Down, Rows;
    }
  }

  // ---- The words by pin number ----

  /** A pixel sends the word before it once, and each of its own four times. */
  lemma PixelSendsAre(t: Trace)
    ensures var w := t.word;
            var up: Word := w[8 := true][10 := true][11 := true][9 := false][12 := false][13 := false][14 := false];
            var down: Word := w[8 := false][10 := false][11 := false][9 := true][12 := true][13 := true][14 := true];
            PixelSends(t) == [w, up, up, up, up, down, down, down, down]
  {
    PixelLog(t);
    PinNumbers(t.word);
    FourTimes(PixelRise(t.word));
    FourTimes(PixelFall(PixelRise(t.word)));
    hide PixelRise, PixelFall, Repeat;
  }

  lemma FourTimes(w: Word)
    ensures Repeat(w, 4) == [w, w, w, w]
  {}

  lemma NineTimes(w: Word)
    ensures Repeat(w, 9) == [w, w, w, w, w, w, w, w, w]
  {}

  /** A transfer with its pixels sends eighteen words, and without them two, nine times each. */
  lemma DownSendsAre(t: Trace, ft: bool)
    ensures var r: Word := t.word[0 := true][2 := true][1 := false][3 := false][4 := false];
            var up: Word := r[8 := true][10 := true][11 := true][9 := false][12 := false][13 := false][14 := false];
            var down: Word := r[8 := false][10 := false][11 := false][9 := true][12 := true][13 := true][14 := true];
            var f: Word := down[0 := false][2 := false][1 := true][3 := true][4 := true];
            var up': Word := f[8 := true][10 := true][11 := true][9 := false][12 := false][13 := false][14 := false];
            var down': Word := f[8 := false][10 := false][11 := false][9 := true][12 := true][13 := true][14 := true];
            ft ==> DownSends(t, ft) ==
                   [r, up, up, up, up, down, down, down, down, f, up', up', up', up', down', down', down', down']
    ensures var r: Word := t.word[0 := true][2 := true][1 := false][3 := false][4 := false];
            var f: Word := r[0 := false][2 := false][1 := true][3 := true][4 := true];
            !ft ==> DownSends(t, ft) == [r, r, r, r, r, r, r, r, r, f, f, f, f, f, f, f, f, f]
  {
    var rise := t.Set(DownRise(t.word));
    PinNumbers(t.word);
    PixelLog(rise);
    var mid := PixelMaybe(rise, ft);
    PinNumbers(mid.word);
    var fall := mid.Set(DownFall(mid.word));
    PixelSendsAre(rise);
    PixelSendsAre(fall);
    NineTimes(rise.word);
    NineTimes(fall.word);
    hide PixelRise, PixelFall, DownRise, DownFall, Pixel, PixelSends, Repeat;
    assert DownSends(t, ft) == PixelMaybeSends(rise, ft) + PixelMaybeSends(fall, ft);
  }

  /** One transfer's words likewise, given what it begins with at pin `b`. */
  lemma TransferAt(t: Trace, k: nat, b: nat)
    requires b < 16 && t.word[b] == (k >= 18 && b in {1, 3, 4, 9, 12, 13, 14})
    ensures |DownSends(t, true)| == 18
    ensures var vertical := if k % 18 < 9 then {0, 2} else {1, 3, 4};
            var horizontal := if 1 <= k % 9 <= 4 then {8, 10, 11} else if k == 0 then {} else {9, 12, 13, 14};
            DownSends(t, true)[k % 18][b] == (b in vertical + horizontal)
  {
    hide DownSends;
    TransferPins(t, k >= 18, k % 18, b);
    assert k % 18 % 9 == k % 9;
  }

  lemma TransferPins(t: Trace, later: bool, j: nat, b: nat)
    requires j < 18 && b < 16 && t.word[b] == (later && b in {1, 3, 4, 9, 12, 13, 14})
    ensures |DownSends(t, true)| == 18
    ensures DownSends(t, true)[j][b] ==
            (b in (if j < 9 then {0, 2} else {1, 3, 4}) ||
             b in (if 1 <= j % 9 <= 4 then {8, 10, 11} else if j == 0 && !later then {} else {9, 12, 13, 14}))
  {
    DownSendsAre(t, true);
    hide DownSends;
    if 1 <= j % 9 <= 4 {
    } else if j == 0 {
    } else if j < 9 {
    } else {
    }
  }

  /** The words of the first frame, by the pins that are high in each. */
  lemma {:induction false} FrameSendsAre(n: nat, k: nat, b: nat)
    requires k < 18 * n && b < 16
    ensures |FrameSends(Trace(ZERO, []), n)| == 18 * n
    ensures var vertical := if k % 18 < 9 then {0, 2} else {1, 3, 4};
            var horizontal := if 1 <= k % 9 <= 4 then {8, 10, 11} else if k == 0 then {} else {9, 12, 13, 14};
            FrameSends(Trace(ZERO, []), n)[k][b] == (b in vertical + horizontal)
  {
    hide DownSends, Downs, FrameSends, ZERO;
    FrameSendCount(Trace(ZERO, []), n);
    FrameSendSplit(Trace(ZERO, []), n - 1, k);
    if k < 18 * (n - 1) {
      FrameSendsAre(n - 1, k, b);
    } else {
      FrameWordAt(n - 1, b);
      TransferAt(Downs(Trace(ZERO, []), n - 1), k, b);
      assert k - 18 * (n - 1) == k % 18;
    }
  }

  /** The words of the first k transfers, and those of the next. */
  lemma FrameSendSplit(t: Trace, k: nat, i: nat)
    requires i < 18 * k + 18
    ensures |FrameSends(t, k)| == 18 * k && |FrameSends(t, k + 1)| == 18 * k + 18
    ensures |DownSends(Downs(t, k), true)| == 18
    ensures FrameSends(t, k + 1)[i] ==
            if i < 18 * k then FrameSends(t, k)[i] else DownSends(Downs(t, k), true)[i - 18 * k]
  {
    hide DownSends, Downs;
    FrameSendCount(t, k);
    DownSendCount(Downs(t, k), true);
  }
}
