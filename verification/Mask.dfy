/** mask.vhdl: the image of a coded aperture, accumulated event by event. The mask
    bits are a parameter: `rom` in the source is one choice of them. */
module MaskImage {

  const IMAGE_SIZE := 499
  const CELLS := IMAGE_SIZE + 1
  const LIMIT := 2047

  /** Bit `i` of the mask shifted left by `e`, or right if `e` is negative. */
  predicate Bit(rom: seq<bool>, e: int, i: nat) {
    0 <= i + e < |rom| && rom[i + e]
  }

  /** How many of the events see an open mask bit from cell `i`. */
  function Hits(rom: seq<bool>, events: seq<int>, i: nat): (h: nat)
    ensures h <= |events|
  {
    if events == [] then 0 else
      Hits(rom, events[..|events| - 1], i) + if Bit(rom, events[|events| - 1], i) then 1 else 0
  }

  /** The cell's value: 4 for a hit and -1 for a miss. */
  function Score(rom: seq<bool>, events: seq<int>, i: nat): int {
    5 * Hits(rom, events, i) - |events|
  }

  /** Nothing has been scored at first, and each event adds four to the cells from which
      it sees an open mask bit and takes one from the others. */
  lemma EventScores(rom: seq<bool>, events: seq<int>, e: int, i: nat)
    ensures Score(rom, [], i) == 0
    ensures Score(rom, events + [e], i) - Score(rom, events, i) ==
            if 0 <= i + e < |rom| && rom[i + e] then 4 else -1
  {
    assert (events + [e])[..|events|] == events;
  }

  lemma {:induction false} HitsConcat(rom: seq<bool>, x: seq<int>, y: seq<int>, i: nat)
    ensures Hits(rom, x + y, i) == Hits(rom, x, i) + Hits(rom, y, i)
    decreases |y|
  {
    if y == [] {
      assert x + y == x;
    } else {
      assert (x + y)[..|x + y| - 1] == x + y[..|y| - 1];
      HitsConcat(rom, x, y[..|y| - 1], i);
    }
  }

  /** Taking an event out of the middle takes out its contribution. */
  lemma HitsWithout(rom: seq<bool>, y: seq<int>, j: nat, i: nat)
    requires j < |y|
    ensures Hits(rom, y, i) == Hits(rom, y[..j] + y[j + 1..], i) + if Bit(rom, y[j], i) then 1 else 0
  {
    assert y == y[..j + 1] + y[j + 1..];
    assert y[..j + 1][..j] == y[..j];
    HitsConcat(rom, y[..j + 1], y[j + 1..], i);
    HitsConcat(rom, y[..j], y[j + 1..], i);
  }

  lemma SameWithout(x: seq<int>, y: seq<int>) returns (j: nat)
    requires multiset(x) == multiset(y) && x != []
    ensures j < |y| && y[j] == x[|x| - 1]
    ensures multiset(x[..|x| - 1]) == multiset(y[..j] + y[j + 1..])
  {
    var e := x[|x| - 1];
    assert x == x[..|x| - 1] + [e];
    assert e in multiset(y);
    j :| 0 <= j < |y| && y[j] == e;
    assert y == y[..j] + [e] + y[j + 1..];
    assert multiset(y) == multiset(y[..j]) + multiset{e} + multiset(y[j + 1..]);
    assert multiset(x) == multiset(x[..|x| - 1]) + multiset{e};
    assert multiset(x[..|x| - 1]) == multiset(x) - multiset{e};
    assert multiset(y[..j] + y[j + 1..]) == multiset(y[..j]) + multiset(y[j + 1..]);
  }

  /** The order of the events does not matter. */
  lemma {:induction false} OrderIrrelevant(rom: seq<bool>, x: seq<int>, y: seq<int>, i: nat)
    requires multiset(x) == multiset(y)
    ensures Hits(rom, x, i) == Hits(rom, y, i) && Score(rom, x, i) == Score(rom, y, i)
    decreases |x|
  {
    assert |x| == |multiset(x)| == |multiset(y)| == |y|;
    if x == [] {
    } else {
      var j := SameWithout(x, y);
      hide Bit;
      OrderIrrelevant(rom, x[..|x| - 1], y[..j] + y[j + 1..], i);
      HitsWithout(rom, y, j, i);
    }
  }

  predicate InRange(v: int) {
    -LIMIT <= v <= LIMIT
  }

  /** Whatever the mask, up to 511 events keep every cell in its range. */
  lemma RangeKept(rom: seq<bool>, events: seq<int>, i: nat)
    requires |events| <= 511
    ensures InRange(Score(rom, events, i))
  {}

  lemma {:induction false} AllHits(rom: seq<bool>, events: seq<int>, i: nat)
    requires forall k :: 0 <= k < |events| ==> Bit(rom, events[k], i)
    ensures Hits(rom, events, i) == |events|
  {
    if events == [] {
    } else {
      AllHits(rom, events[..|events| - 1], i);
    }
  }

  /** And no more do: for any mask with an open bit, 511 is the longest run of
      events that is safe for every choice of events. */
  lemma SafeRun(rom: seq<bool>, open: nat, n: nat)
    requires |rom| >= CELLS && open < |rom| && rom[open]
    ensures (forall events: seq<int>, i: nat ::
               i < CELLS && |events| == n ==> InRange(Score(rom, events, i)))
            <==> n <= 511
  {
    if n <= 511 {
      forall events: seq<int>, i: nat | i < CELLS && |events| == n
        ensures InRange(Score(rom, events, i))
      {
        RangeKept(rom, events, i);
      }
    } else {
      var events := seq(n, _ => open);
      AllHits(rom, events, 0);
      assert Score(rom, events, 0) == 4 * n;
      assert !InRange(Score(rom, events, 0));
    }
  }

  class Mask {
    const rom: seq<bool>
    var stateReg: int
    var shiftreg: seq<bool>
    var idle: bool
    const image: array<int>
    ghost var events: seq<int>  // consumed since reset
    ghost var finished: nat     // how many of them are in the image

    ghost predicate Valid()
      reads this, image
    {
      image.Length == CELLS &&
      (stateReg == 1 || stateReg == 2) && idle == (stateReg == 1) &&
      |shiftreg| == |rom| && |rom| >= CELLS &&
      finished == (if stateReg == 1 then |events| else |events| - 1) &&
      (stateReg == 2 ==>
         events != [] && forall i :: 0 <= i < |rom| ==> shiftreg[i] == Bit(rom, events[|events| - 1], i)) &&
      forall i :: 0 <= i < CELLS ==> image[i] == Score(rom, events[..finished], i)
    }

    /** The state after a reset, before which the image is undefined. */
    constructor (rom: seq<bool>)
      requires |rom| >= CELLS
      ensures Valid() && events == [] && idle && fresh(image) && image.Length == 500 && this.rom == rom
    {
      this.rom := rom;
      image := new int[CELLS](_ => 0);
      stateReg, idle := 1, true;
      shiftreg := seq(|rom|, _ => false);
      events, finished := [], 0;
    }

    /** A rising edge of the clock. */
    method Clock(reset: bool, waiting: bool, event: int)
      requires Valid()
      modifies this, image
      ensures Valid()
      ensures events == if reset then [] else if old(idle) && waiting then old(events) + [event] else old(events)
      ensures idle == (reset || !old(idle) || !waiting)
    {
      if reset {
        stateReg := 1;
        forall i | 0 <= i < image.Length {
          image[i] := 0;
        }
        shiftreg := seq(|rom|, _ => false);
        idle := true;
        events, finished := [], 0;
      } else if stateReg == 1 {
        if waiting {
          idle := false;
          shiftreg := seq(|rom|, i requires 0 <= i < |rom| => Bit(rom, event, i));
          stateReg := 2;
          assert (events + [event])[..finished] == events[..finished];
          events := events + [event];
        }
      } else {
        AddEvent();
        idle := true;
        stateReg := 1;
        finished := |events|;
        assert events[..|events|] == events;
      }
    }

    /** One pass over the image for the event in the shift register. */
    method AddEvent()
      requires Valid() && stateReg == 2
      modifies image
      ensures forall i :: 0 <= i < CELLS ==> image[i] == Score(rom, events, i)
    {
      ghost var past := events[..|events| - 1];
      var i := 0;
      while i <= IMAGE_SIZE
        invariant 0 <= i <= CELLS
        invariant forall k :: 0 <= k < i ==> image[k] == Score(rom, events, k)
        invariant forall k :: i <= k < CELLS ==> image[k] == Score(rom, past, k)
      {
        if shiftreg[i] {
          image[i] := image[i] + 4;
        } else {
          image[i] := image[i] - 1;
        }
        i := i + 1;
      }
    }
  }
}
