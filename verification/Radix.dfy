/** `%x` and `%o` of sbufprintf: digits are gathered from the low end of a bit
    string of any length, and reversed. */
module RadixPrint {
  import opened Numerals
  import opened BitStrings
  import opened Printf
  import Stdlib

  predicate NoNul(s: string) {
    forall k :: 0 <= k < |s| ==> s[k] != BitStrings.NUL
  }

  predicate Blank(c: char) {
    c == ' ' || c == HT
  }

  lemma {:induction false} CleanConcat(x: string, y: string)
    requires NoNul(x)
    ensures Clean(x + y) == Clean(x) + Clean(y)
  {
    if x == [] {
      assert x + y == y;
    } else {
      assert (x + y)[0] == x[0] && (x + y)[1..] == x[1..] + y;
      CleanConcat(x[1..], y);
    }
  }

  lemma {:induction false} NoOnes(s: string)
    requires forall k :: 0 <= k < |s| ==> s[k] != '1'
    ensures Unsigned(Clean(s)) == 0
  {
    if s == [] || s[0] == BitStrings.NUL {
    } else {
      NoOnes(s[1..]);
      if !Blank(s[0]) {
        UnsignedCons(false, Clean(s[1..]));
      }
    }
  }

  lemma {:induction false} UnsignedConcat(x: seq<bool>, y: seq<bool>)
    ensures Unsigned(x + y) == Unsigned(x) * Pow(2, |y|) + Unsigned(y)
    decreases |x|
  {
    if x == [] {
      assert x + y == y;
    } else {
      var x', b := x[1..], x[0];
      assert x == [b] + x' && x + y == [b] + (x' + y);
      hide Unsigned, Pow;
      UnsignedConcat(x', y);
      UnsignedCons(b, x' + y);
      UnsignedCons(b, x');
      PowAdd(2, |x'|, |y|);
      Distributes(Unsigned(x'), Pow(2, |x'|), Pow(2, |y|));
    }
  }

  lemma {:induction false} PowAdd(b: nat, m: nat, n: nat)
    ensures Pow(b, m + n) == Pow(b, m) * Pow(b, n)
  {
    if m == 0 {
    } else {
      PowAdd(b, m - 1, n);
      assert b * (Pow(b, m - 1) * Pow(b, n)) == (b * Pow(b, m - 1)) * Pow(b, n);
    }
  }

  /** The first one, s(z), and the end of the bits, s(sn); z is 0 if there is no
      one. */
  method Span(s: string) returns (z: nat, sn: nat)
    ensures z == 0 ==> Unsigned(Clean(s)) == 0
    ensures z > 0 ==>
              z <= sn <= |s| && s[z - 1] == '1' && NoNul(s[z - 1..sn]) &&
              Unsigned(Clean(s)) == Unsigned(Clean(s[z - 1..sn]))
  {
    hide Clean, Unsigned;
    z, sn := 0, |s|;
    var i := 0;
    while i < |s|
      invariant 0 <= i <= |s| && NoNul(s[..i])
      invariant z == 0 ==> forall k :: 0 <= k < i ==> s[k] != '1'
      invariant z > 0 ==> z <= sn == i && s[z - 1] == '1' && forall k :: 0 <= k < z - 1 ==> s[k] != '1'
    {
      if z == 0 && s[i] == '1' {
        z := i + 1;
      }
      if s[i] == BitStrings.NUL {
        break;
      }
      i := i + 1;
      sn := i;
    }
    EndsAt(s, i);
    if z == 0 {
      NoOnes(s[..i]);
    } else {
      DropLeading(s, z, i);
    }
  }

  /** Zeros in front of the first one do not count. */
  lemma DropLeading(s: string, z: nat, i: nat)
    requires 1 <= z <= i <= |s| && NoNul(s[..i]) && forall k :: 0 <= k < z - 1 ==> s[k] != '1'
    ensures NoNul(s[z - 1..i]) && Unsigned(Clean(s[..i])) == Unsigned(Clean(s[z - 1..i]))
  {
    hide Clean, Unsigned;
    var x, y := s[..z - 1], s[z - 1..i];
    assert s[..i] == x + y;
    assert forall k :: 0 <= k < |y| ==> y[k] == s[..i][k + z - 1];
    assert forall k :: 0 <= k < |x| ==> x[k] == s[..i][k];
    CleanConcat(x, y);
    NoOnes(x);
    UnsignedConcat(Clean(x), Clean(y));
  }

  lemma EndsAt(s: string, i: nat)
    requires i <= |s| && NoNul(s[..i]) && (i < |s| ==> s[i] == BitStrings.NUL)
    ensures Clean(s) == Clean(s[..i])
  {
    assert s == s[..i] + s[i..];
    CleanConcat(s[..i], s[i..]);
  }

  /** The bits `bs` have been gathered: the digits of `w`, and `ax` for the bits
      that do not make a digit yet, `j` being the weight of the next one. */
  ghost predicate Gathered(bs: seq<bool>, w: string, ax: nat, j: nat, p: nat) {
    j in {1, 2, 4, 8} && j < p && ax < j &&
    Digits(Reverse(w), p) && LowerHex(w) &&
    Pow(2, |bs|) == j * Pow(p, |w|) &&
    Unsigned(bs) == ax * Pow(p, |w|) + Value(Reverse(w), p) &&
    (bs != [] && bs[0] ==> ax > 0 || (w != [] && w[|w| - 1] != '0'))
  }

  lemma GatherBit(bs: seq<bool>, w: string, ax: nat, j: nat, p: nat, b: bool)
    requires Gathered(bs, w, ax, j, p) && 2 * j < p && p in {8, 16}
    ensures Gathered([b] + bs, w, if b then j + ax else ax, 2 * j, p)
  {
    UnsignedCons(b, bs);
    Distributes(ax, j, Pow(p, |w|));
  }

  lemma Distributes(x: nat, j: nat, p: nat)
    ensures (j + x) * p == j * p + x * p
    ensures (2 * j) * p == 2 * (j * p)
  {}

  lemma GatherDigit(bs: seq<bool>, w: string, ax: nat, j: nat, p: nat, b: bool)
    requires Gathered(bs, w, ax, j, p) && 2 * j == p && p in {8, 16}
    ensures var d := if b then j + ax else ax;
            d < 16 && Gathered([b] + bs, w + [DigitChar(d)], 0, 1, p)
  {
    var d := if b then j + ax else ax;
    UnsignedCons(b, bs);
    Distributes(ax, j, Pow(p, |w|));
    WriteDigit(w, d, p);
    assert d > 0 ==> DigitChar(d) != '0';
  }

  lemma WriteDigit(w: string, d: nat, p: nat)
    requires d < p <= 16 && Digits(Reverse(w), p) && LowerHex(w)
    ensures var w' := w + [DigitChar(d)];
            Digits(Reverse(w'), p) && LowerHex(w') &&
            Value(Reverse(w'), p) == d * Pow(p, |w|) + Value(Reverse(w), p) &&
            Pow(p, |w'|) == p * Pow(p, |w|)
  {
    ReverseSnoc(w, DigitChar(d));
    ValueCons(DigitChar(d), Reverse(w), p);
  }

  method Gather(s: string, z: nat, sn: nat, p: nat) returns (w: string, ax: nat, ghost j: nat)
    requires 1 <= z <= sn <= |s| && s[z - 1] == '1' && NoNul(s[z - 1..sn]) && p in {8, 16}
    ensures Gathered(Clean(s[z - 1..sn]), w, ax, j, p)
    ensures ax > 0 || (w != [] && w[|w| - 1] != '0')
  {
    hide Gathered, Clean, NoNul;
    var weight: nat := 1;
    w, ax := "", 0;
    var i := sn;
    NothingGathered(s[sn..sn], p);
    FirstIsOne(s, z, sn);
    while i >= z
      invariant z - 1 <= i <= sn
      invariant Gathered(Clean(s[i..sn]), w, ax, weight, p)
    {
      NotNul(s, z, i, sn);
      w, ax, weight := GatherAt(s, i, sn, w, ax, weight, p);
      i := i - 1;
    }
    j := weight;
    TopDigit(Clean(s[z - 1..sn]), w, ax, j, p);
  }

  lemma NotNul(s: string, z: nat, i: nat, sn: nat)
    requires 1 <= z <= i <= sn <= |s| && NoNul(s[z - 1..sn])
    ensures s[i - 1] != BitStrings.NUL
  {
    assert s[i - 1] == s[z - 1..sn][i - z];
  }

  /** One character more, which may be blank. */
  method GatherAt(s: string, i: nat, ghost sn: nat, w0: string, ax0: nat, j0: nat, p: nat)
    returns (w: string, ax: nat, j: nat)
    requires 1 <= i <= sn <= |s| && s[i - 1] != BitStrings.NUL && p in {8, 16}
    requires Gathered(Clean(s[i..sn]), w0, ax0, j0, p)
    ensures Gathered(Clean(s[i - 1..sn]), w, ax, j, p)
  {
    hide Gathered, Clean;
    CleanStep(s, i, sn);
    w, ax, j := w0, ax0, j0;
    if Blank(s[i - 1]) {
      assert [] + Clean(s[i..sn]) == Clean(s[i..sn]);
    } else {
      w, ax, j := GatherOne(s[i - 1] == '1', w, ax, j, p, Clean(s[i..sn]));
    }
  }

  /** One bit more. */
  method GatherOne(one: bool, w0: string, ax0: nat, j0: nat, p: nat, ghost bs: seq<bool>)
    returns (w: string, ax: nat, j: nat)
    requires Gathered(bs, w0, ax0, j0, p) && p in {8, 16}
    ensures Gathered([one] + bs, w, ax, j, p)
  {
    WeightBelow(bs, w0, ax0, j0, p);
    if 2 * j0 < p {
      GatherBit(bs, w0, ax0, j0, p, one);
    } else {
      GatherDigit(bs, w0, ax0, j0, p, one);
    }
    hide Gathered;
    w, ax, j := w0, ax0, j0;
    if one {
      ax, j := j + ax, 2 * j;
    } else {
      j := 2 * j;
    }
    if j == p {
      w := w + [DigitChar(ax)];
      ax, j := 0, 1;
    }
  }

  lemma TopDigit(bs: seq<bool>, w: string, ax: nat, j: nat, p: nat)
    requires Gathered(bs, w, ax, j, p) && bs != [] && bs[0]
    ensures ax > 0 || (w != [] && w[|w| - 1] != '0')
  {}

  lemma FirstIsOne(s: string, z: nat, sn: nat)
    requires 1 <= z <= sn <= |s| && s[z - 1] == '1'
    ensures Clean(s[z - 1..sn]) != [] && Clean(s[z - 1..sn])[0]
  {
    CleanStep(s, z, sn);
  }

  lemma NothingGathered(s: string, p: nat)
    requires s == [] && p in {8, 16}
    ensures Gathered(Clean(s), "", 0, 1, p)
  {}

  lemma WeightBelow(bs: seq<bool>, w: string, ax: nat, j: nat, p: nat)
    requires Gathered(bs, w, ax, j, p) && p in {8, 16}
    ensures 1 <= j && 2 * j <= p
  {}

  lemma CleanStep(s: string, i: nat, sn: nat)
    requires 1 <= i <= sn <= |s| && s[i - 1] != BitStrings.NUL
    ensures Clean(s[i - 1..sn]) == (if Blank(s[i - 1]) then [] else [s[i - 1] == '1']) + Clean(s[i..sn])
  {
    assert s[i - 1..sn][0] == s[i - 1] && s[i - 1..sn][1..] == s[i..sn];
  }

  /** The digits written, once what is left over has been, are the numeral. */
  lemma Complete(bs: seq<bool>, w: string, ax: nat, j: nat, p: nat)
    requires Gathered(bs, w, ax, j, p) && p in {8, 16}
    requires ax > 0 || w == [] || w[|w| - 1] != '0'
    ensures ax < 16
    ensures var w' := if ax > 0 || w == [] then w + [DigitChar(ax)] else w;
            Reverse(w') == Numeral(Unsigned(bs), p)
  {
    var w' := if ax > 0 || w == [] then w + [DigitChar(ax)] else w;
    WriteDigit(w, ax, p);
    var r := Reverse(w');
    assert r[0] == w'[|w'| - 1];
    assert ax > 0 ==> DigitChar(ax) != '0';
    forall k | 0 <= k < |r|
      ensures r[k] in HEX
    {
      assert r[k] == w'[|w'| - 1 - k];
    }
    NumeralUnique(r, p);
  }

  /** `%o` when `octal`, else `%x`. */
  method PrintRadix(s: string, octal: bool, left: bool, zero: bool, m: nat) returns (buf: string)
    ensures buf == RadixText(Unsigned(Clean(s)), if octal then 8 else 16, left, zero, m)
  {
    hide Clean, Unsigned, Numeral, Reverse;
    var w := ReversedRadix(s, octal);
    ghost var digits := Numeral(Unsigned(Clean(s)), if octal then 8 else 16);
    Twice(w);
    ghost var zeros := 0;
    if zero && !left {
      zeros := Short(|w|, m);
      var n;
      w, n := PadZeros(w, |w|, m);
    }
    ReverseJoined(digits, zeros, "", w);
    w := ReverseLine(w);
    assert "" + Zeros(zeros) + digits == Zeros(zeros) + digits;
    buf := PutField(w, left, m);
  }

  /** The digits, least significant first. */
  method ReversedRadix(s: string, octal: bool) returns (w: string)
    ensures Reverse(w) == Numeral(Unsigned(Clean(s)), if octal then 8 else 16)
  {
    hide Clean, Unsigned, Numeral, Reverse, Gathered;
    var ax, p := 0, if octal then 8 else 16;
    w := "";
    var z, sn := Span(s);
    if z != 0 {
      ghost var j;
      w, ax, j := Gather(s, z, sn, p);
      Complete(Clean(s[z - 1..sn]), w, ax, j, p);
    } else {
      ZeroNumeral(p);
    }
    if ax > 0 || |w| == 0 {
      w := w + [DigitChar(ax)];
    }
  }

  lemma ZeroNumeral(p: nat)
    requires p in {8, 16}
    ensures Reverse("" + [DigitChar(0)]) == Numeral(0, p)
  {}

  lemma Twice(w: string)
    ensures Reverse(Reverse(w)) == w && |Reverse(w)| == |w|
  {}
}
