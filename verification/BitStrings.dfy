/** The bit strings stdio_h.vhdl prints and scans: big endian text in which `1` is a
    one, blanks and tabs are skipped, NUL ends the text and anything else is a
    zero. */
module BitStrings {
  import opened Numerals

  const NUL := '\0'
  const HT := '\t'

  const MAX_INTEGER := 0x7fff_ffff

  /** A VHDL integer: every value a program may rely on. */
  type Integer = x: int | -MAX_INTEGER <= x <= MAX_INTEGER

  function Clean(s: string): seq<bool> {
    if s == [] || s[0] == NUL then []
    else if s[0] == ' ' || s[0] == HT then Clean(s[1..])
    else [s[0] == '1'] + Clean(s[1..])
  }

  function Unsigned(bs: seq<bool>): nat {
    if bs == [] then 0 else 2 * Unsigned(bs[..|bs| - 1]) + if bs[|bs| - 1] then 1 else 0
  }

  /** Two's complement: the first bit counts against the rest. */
  function Signed(bs: seq<bool>): int {
    Unsigned(bs) - if bs != [] && bs[0] then Pow(2, |bs|) else 0
  }

  function Abs(x: int): nat {
    if x < 0 then -x else x
  }

  /** What each character of a bit string stands for, by its code. */
  lemma CleanFirst(c: char, s: string)
    ensures Clean([]) == []
    ensures Clean([c] + s) == match c as int
                              case 0 => []
                              case 9 => Clean(s)
                              case 32 => Clean(s)
                              case 49 => [true] + Clean(s)
                              case _ => [false] + Clean(s)
  {
    assert ([c] + s)[1..] == s;
  }

  lemma UnsignedSnoc(bs: seq<bool>, b: bool)
    ensures Unsigned(bs + [b]) == 2 * Unsigned(bs) + if b then 1 else 0
  {
    assert (bs + [b])[..|bs|] == bs;
  }

  lemma SignedSnoc(bs: seq<bool>, b: bool)
    requires bs != []
    ensures Signed(bs + [b]) == 2 * Signed(bs) + if b then 1 else 0
  {
    UnsignedSnoc(bs, b);
  }

  lemma SignedOne(b: bool)
    ensures Signed([b]) == if b then -1 else 0
  {
    UnsignedSnoc([], b);
    assert [] + [b] == [b];
    assert Pow(2, 1) == 2 * Pow(2, 0);
  }

  lemma {:induction false} UnsignedBound(bs: seq<bool>)
    ensures Unsigned(bs) < Pow(2, |bs|)
  {
    if bs == [] {
    } else {
      UnsignedBound(bs[..|bs| - 1]);
    }
  }

  lemma {:induction false} UnsignedCons(b: bool, bs: seq<bool>)
    ensures Unsigned([b] + bs) == (if b then Pow(2, |bs|) else 0) + Unsigned(bs)
  {
    if bs == [] {
      assert [b] + bs == [] + [b];
      UnsignedSnoc([], b);
    } else {
      var bs', last := bs[..|bs| - 1], bs[|bs| - 1];
      assert [b] + bs == ([b] + bs') + [last];
      UnsignedSnoc([b] + bs', last);
      UnsignedCons(b, bs');
    }
  }

  /** What the conversion loops compute bit by bit: while the number is negative
      its complement, otherwise the number. */
  function Running(bs: seq<bool>, signed: bool): int {
    if !signed then Unsigned(bs)
    else if Signed(bs) < 0 then -Signed(bs) - 1
    else Signed(bs)
  }

  lemma RunningSnoc(bs: seq<bool>, b: bool, signed: bool)
    requires signed ==> bs != []
    ensures Running(bs, signed) >= 0
    ensures signed ==> (Signed(bs + [b]) < 0 <==> Signed(bs) < 0)
    ensures Running(bs + [b], signed) ==
            2 * Running(bs, signed) + if b != (signed && Signed(bs) < 0) then 1 else 0
  {
    UnsignedSnoc(bs, b);
    if signed {
      SignedSnoc(bs, b);
    }
  }

  /** It never falls, so no intermediate result is larger than the last. */
  lemma {:induction false} RunningGrows(bs: seq<bool>, more: seq<bool>, signed: bool)
    requires signed ==> bs != []
    ensures 0 <= Running(bs, signed) <= Running(bs + more, signed)
    decreases |more|
  {
    if more == [] {
      assert bs + more == bs;
      RunningSnoc(bs, true, signed);
    } else {
      var more', b := more[..|more| - 1], more[|more| - 1];
      RunningGrows(bs, more', signed);
      assert bs + more == (bs + more') + [b];
      RunningSnoc(bs + more', b, signed);
    }
  }

  /** The value printed for `s`. */
  function ValueOf(s: string, signed: bool): int {
    if signed then Signed(Clean(s)) else Unsigned(Clean(s))
  }

  /** Its magnitude, before and after the final +1, is a VHDL integer. */
  predicate Fits(s: string, signed: bool) {
    Abs(ValueOf(s, signed)) <= MAX_INTEGER
  }

  /** The magnitude of a bit string, and its sign, as `%d`, `%u` and `sf` find it:
      no intermediate result leaves the range of an integer. */
  method Magnitude(s: string, signed: bool) returns (ax: Integer, nflag: bool)
    requires Fits(s, signed)
    ensures ax == Abs(ValueOf(s, signed))
    ensures nflag == (ValueOf(s, signed) < 0)
  {
    ghost var all := Clean(s);
    ghost var seen: seq<bool> := [];
    ax, nflag := 0, false;
    var p := if signed then 1 else 0;
    var i := 0;
    assert seen + Clean(s[i..]) == all by {
      assert s[0..] == s;
    }
    while i < |s|
      invariant 0 <= i <= |s|
      invariant seen + Clean(s[i..]) == all
      invariant p == if signed && seen == [] then 1 else 0
      invariant nflag == (signed && Signed(seen) < 0)
      invariant ax == if signed && seen == [] then 0 else Running(seen, signed)
    {
      assert s[i..][0] == s[i] && s[i..][1..] == s[i + 1..];
      if s[i] == NUL {
        break;
      } else if s[i] == ' ' || s[i] == HT {
      } else {
        var one := s[i] == '1';
        StepFits(s, all, seen, one, Clean(s[i + 1..]), signed);
        if p == 1 {
          p := 0;
          nflag := one;
        } else if nflag {
          ax := 2 * ax + if one then 0 else 1;
        } else {
          ax := 2 * ax + if one then 1 else 0;
        }
        seen := seen + [one];
      }
      i := i + 1;
    }
    assert seen == all by {
      assert seen + [] == seen;
    }
    EndFits(s, signed);
    if nflag {
      ax := ax + 1;
    }
  }

  lemma EndFits(s: string, signed: bool)
    requires Fits(s, signed)
    ensures var all := Clean(s);
            Abs(ValueOf(s, signed)) ==
            (if signed && all == [] then 0 else Running(all, signed)) +
            if signed && Signed(all) < 0 then 1 else 0
  {}

  /** One more bit. */
  lemma StepFits(s: string, all: seq<bool>, seen: seq<bool>, one: bool, rest: seq<bool>, signed: bool)
    requires Fits(s, signed) && all == Clean(s) && seen + ([one] + rest) == all
    ensures (seen + [one]) + rest == all
    ensures 0 <= Running(seen + [one], signed) <= MAX_INTEGER
    ensures signed ==> (Signed(seen + [one]) < 0 <==> if seen == [] then one else Signed(seen) < 0)
    ensures signed && seen == [] ==> Running(seen + [one], signed) == 0
    ensures !(signed && seen == []) ==>
              Running(seen + [one], signed) ==
              2 * Running(seen, signed) + if one != (signed && Signed(seen) < 0) then 1 else 0
  {
    RunningGrows(seen + [one], rest, signed);
    if signed && seen == [] {
      assert seen + [one] == [one];
      SignedOne(one);
    } else {
      RunningSnoc(seen, one, signed);
    }
  }

  // ---- From integers to bit strings ----

  function BitLength(a: nat): nat {
    if a == 0 then 0 else 1 + BitLength(a / 2)
  }

  /** The lowest set bit. */
  function LowBit(a: nat): nat
    requires a > 0
  {
    if a % 2 == 1 then 1 else 2 * LowBit(a / 2)
  }

  /** What `pf` means by an integer: negative numbers lose the zeros below their
      lowest set bit. */
  function Coded(x: int): int {
    if x >= 0 then x else x - 1 + LowBit(-x)
  }

  lemma {:induction false} LowBitOdd(a: nat)
    requires a > 0
    ensures LowBit(a) >= 1 && (LowBit(a) == 1 <==> a % 2 == 1)
  {
    if a % 2 == 1 {
    } else {
      LowBitOdd(a / 2);
    }
  }

  /** It is the integer itself exactly for the non-negative and the odd. */
  lemma CodedExactly(x: int)
    ensures Coded(x) == x <==> x >= 0 || x % 2 != 0
  {
    if x < 0 {
      Parity(x);
      hide LowBit;
      LowBitOdd(-x);
    }
  }

  /** For the others it is off by one less than the power of two they hold. */
  lemma CodedEven(odd: nat, k: nat)
    requires odd % 2 == 1
    ensures var a := odd * Pow(2, k); a > 0 && Coded(-a) == -a - 1 + Pow(2, k)
  {
    OddTimesPower(odd, k);
    hide LowBit, Pow;
  }

  lemma {:induction false} OddTimesPower(odd: nat, k: nat)
    requires odd % 2 == 1
    ensures odd * Pow(2, k) > 0 && LowBit(odd * Pow(2, k)) == Pow(2, k)
  {
    hide LowBit;
    if k == 0 {
      LowBitOdd(odd);
      Once(odd, Pow(2, 0));
    } else {
      OddTimesPower(odd, k - 1);
      LowBitDoubled(odd * Pow(2, k - 1));
      PowStep(2, k - 1);
      Doubled(odd, Pow(2, k - 1));
      hide Pow;
    }
  }

  lemma Once(x: nat, p: nat)
    requires p == 1
    ensures x * p == x
  {}

  lemma LowBitDoubled(a: nat)
    requires a > 0
    ensures LowBit(2 * a) == 2 * LowBit(a)
  {
    assert 2 * a % 2 == 0 && 2 * a / 2 == a;
  }

  lemma Doubled(x: nat, p: nat)
    ensures x * (2 * p) == 2 * (x * p)
  {}

  predicate IsBits(s: string) {
    forall k :: 0 <= k < |s| ==> s[k] == '0' || s[k] == '1'
  }

  function ToBits(s: string): seq<bool> {
    seq(|s|, i requires 0 <= i < |s| => s[i] == '1')
  }

  lemma {:induction false} CleanBits(s: string)
    requires IsBits(s)
    ensures Clean(s) == ToBits(s)
  {
    if s == [] {
    } else {
      CleanBits(s[1..]);
    }
  }

  /** The bits of -a below the sign, as `pf` writes them: with the carry still in
      (`carry`) zeros become ones and the lowest one stays; then all are inverted. */
  function Complement(a: nat, n: nat, carry: bool): string {
    if n == 0 then [] else
      var bit := if a % 2 == 0 then '1' else if carry then '1' else '0';
      Complement(a / 2, n - 1, carry && a % 2 == 0) + [bit]
  }

  function Plain(a: nat, n: nat): string {
    if n == 0 then [] else Plain(a / 2, n - 1) + [if a % 2 == 0 then '0' else '1']
  }

  lemma {:induction false} PlainValue(a: nat, n: nat)
    requires n > BitLength(a)
    ensures IsBits(Plain(a, n)) && |Plain(a, n)| == n && Signed(ToBits(Plain(a, n))) == a
  {
    if n == 1 {
      assert Plain(a, 1) == Plain(a / 2, 0) + ['0'];
      assert ToBits(Plain(a, 1)) == [false];
      SignedOne(false);
    } else {
      PlainValue(a / 2, n - 1);
      var s, b := Plain(a / 2, n - 1), a % 2 == 1;
      assert ToBits(Plain(a, n)) == ToBits(s) + [b];
      SignedSnoc(ToBits(s), b);
    }
  }

  lemma HalfLowBit(a: nat, n: nat)
    requires n > BitLength(a) && n > 1
    ensures a == 2 * (a / 2) + a % 2 && n - 1 > BitLength(a / 2)
    ensures a > 0 && a % 2 == 1 ==> LowBit(a) == 1
    ensures a > 0 && a % 2 == 0 ==> a / 2 > 0 && LowBit(a) == 2 * LowBit(a / 2)
  {}

  lemma {:induction false} ComplementValue(a: nat, n: nat, carry: bool)
    requires n > BitLength(a) && (carry ==> a > 0)
    ensures IsBits(Complement(a, n, carry)) && |Complement(a, n, carry)| == n
    ensures Signed(ToBits(Complement(a, n, carry))) == (if carry then LowBit(a) else 0) - a - 1
  {
    var even := a % 2 == 0;
    var s := Complement(a / 2, n - 1, carry && even);
    var b := even || carry;
    assert Complement(a, n, carry) == s + [if b then '1' else '0'];
    if n == 1 {
      assert a == 0;
      assert ToBits(Complement(a, 1, carry)) == [true];
      SignedOne(true);
    } else {
      HalfLowBit(a, n);
      hide LowBit, Complement, Signed, BitLength;
      ComplementValue(a / 2, n - 1, carry && even);
      assert ToBits(Complement(a, n, carry)) == ToBits(s) + [b];
      SignedSnoc(ToBits(s), b);
    }
  }

  lemma {:induction false} BitLengthBound(a: nat, n: nat)
    requires a < Pow(2, n)
    ensures BitLength(a) <= n
  {
    if a == 0 {
    } else {
      BitLengthBound(a / 2, n - 1);
    }
  }

  /** So many bits and no fewer. */
  lemma {:induction false} BitLengthIs(a: nat)
    ensures a < Pow(2, BitLength(a))
    ensures a > 0 ==> BitLength(a) >= 1 && Pow(2, BitLength(a) - 1) <= a
  {
    if a == 0 {
    } else {
      BitLengthIs(a / 2);
    }
  }

  /** Division and remainder of a VHDL integer: the quotient is truncated, the
      remainder has the sign of the divisor. */
  function Div2(a: int): int {
    if a >= 0 then a / 2 else -((-a) / 2)
  }

  function Mod2(a: int): int {
    a % 2
  }

  /** pf(INTEGER): the least number of bits, and a sign bit. */
  method Pf(x: Integer) returns (y: string)
    ensures IsBits(y) && |y| == BitLength(Abs(x)) + 1
    ensures Signed(Clean(y)) == Coded(x)
  {
    var n := CountBits(x);
    y := WriteBits(x, n);
    CodeOf(x, n, y);
  }

  function Code(x: int, a: int, n: nat, c: bool): string {
    if x < 0 then Complement(Abs(a), n, c) else Plain(Abs(a), n)
  }

  method WriteBits(x: Integer, n: nat) returns (y: string)
    ensures y == Code(x, x, n, x < 0)
  {
    var a: int := x;
    var c := x < 0;
    y := "";
    assert Code(x, a, n, c) + y == Code(x, a, n, c);
    var i := n;
    while i > 0
      invariant 0 <= i <= n
      invariant if x < 0 then a <= 0 else a >= 0
      invariant Code(x, a, i, c) + y == Code(x, x, n, x < 0)
    {
      hide Code, Div2, Mod2;
      OneBit(x, a, i - 1, c, y);
      var b := Mod2(a);
      var d;
      if x < 0 {
        if b == 0 {
          d := '1';
        } else {
          d := if c then '1' else '0';
          c := false;
        }
      } else {
        d := if b == 0 then '0' else '1';
      }
      a := Div2(a);
      y := [d] + y;
      i := i - 1;
    }
    assert "" + y == y;
  }

  /** The bits of the magnitude and one for the sign; they fit the 128 characters
      the source reserves. */
  method CountBits(x: Integer) returns (n: nat)
    ensures n == BitLength(Abs(x)) + 1 && n <= 32
  {
    var a: int := Abs(x);
    n := 1;
    while a != 0
      invariant a >= 0 && n >= 1 && n + BitLength(a) == BitLength(Abs(x)) + 1
      decreases a
    {
      a, n := a / 2, n + 1;
    }
    PowersOfTwo();
    BitLengthBound(Abs(x), 31);
  }

  lemma CodeOf(x: int, n: nat, y: string)
    requires n == BitLength(Abs(x)) + 1
    requires y == Code(x, x, n, x < 0)
    ensures IsBits(y) && |y| == n && Signed(Clean(y)) == Coded(x)
  {
    hide Complement, Plain, LowBit, Signed, BitLength, Clean;
    if x < 0 {
      ComplementValue(-x, n, true);
    } else {
      PlainValue(x, n);
    }
    CleanBits(y);
  }

  lemma OneBit(x: int, a: int, i: nat, c: bool, y: string)
    requires if x < 0 then a <= 0 else a >= 0
    ensures if x < 0 then Div2(a) <= 0 else Div2(a) >= 0
    ensures x >= 0 ==>
              Code(x, a, i + 1, c) + y == Code(x, Div2(a), i, c) + ([if Mod2(a) == 0 then '0' else '1'] + y)
    ensures x < 0 ==>
              Code(x, a, i + 1, c) + y ==
              Code(x, Div2(a), i, c && Mod2(a) == 0) + ([if Mod2(a) == 0 || c then '1' else '0'] + y)
  {
    var k := Abs(a);
    Parity(a);
    assert k % 2 == Mod2(a) && Abs(Div2(a)) == k / 2;
    if x < 0 {
      assert Complement(k, i + 1, c) == Complement(k / 2, i, c && k % 2 == 0) + [if k % 2 == 0 || c then '1' else '0'];
    } else {
      assert Plain(k, i + 1) == Plain(k / 2, i) + [if k % 2 == 0 then '0' else '1'];
    }
  }

  lemma PowersOfTwo()
    ensures Pow(2, 31) == 0x8000_0000
  {
    assert Pow(2, 8) == 256;
    assert Pow(2, 16) == 65536;
    assert Pow(2, 24) == 0x100_0000;
  }

  /** sf: only the magnitude is read back. */
  method Sf(s: string) returns (ax: Integer)
    requires Fits(s, true)
    ensures ax == Abs(Signed(Clean(s)))
  {
    var nflag;
    ax, nflag := Magnitude(s, true);
  }

  /** Reading back what pf wrote gives the magnitude for the non-negative and the
      odd, and for no others. */
  lemma SfOfPf(x: int)
    ensures Abs(Coded(x)) == Abs(x) <==> x >= 0 || x % 2 != 0
  {
    if x < 0 {
      Parity(x);
      hide LowBit;
      LowBitOdd(-x);
      LowBitSmall(-x);
    }
  }

  lemma Parity(x: int)
    ensures (-x) % 2 == x % 2
  {}

  lemma {:induction false} LowBitSmall(a: nat)
    requires a > 0
    ensures LowBit(a) <= a
  {
    if a % 2 == 1 {
    } else {
      LowBitSmall(a / 2);
    }
  }
}
