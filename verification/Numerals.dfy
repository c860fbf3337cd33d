/** Numerals in a base up to 36, most significant digit first. */
module Numerals {
  import opened Arithmetic

  function Pow(b: nat, n: nat): nat {
    if n == 0 then 1 else b * Pow(b, n - 1)
  }

  /** The digit a character stands for, letters of either case being 10 to 35;
      -1 for every other character. */
  function DigitOf(c: char): (d: int)
    ensures d < 36
  {
    if '0' <= c <= '9' then c as int - 48
    else if 'A' <= c <= 'Z' then c as int - 55
    else if 'a' <= c <= 'z' then c as int - 87
    else -1
  }

  predicate IsDigit(c: char, b: nat) {
    0 <= DigitOf(c) < b
  }

  predicate Digits(s: string, b: nat) {
    forall k :: 0 <= k < |s| ==> IsDigit(s[k], b)
  }

  const HEX := "0123456789abcdef"

  function DigitChar(d: nat): (c: char)
    requires d < 16
    ensures DigitOf(c) == d
  {
    HEX[d]
  }

  function Value(s: string, b: nat): nat
    requires Digits(s, b)
  {
    if s == [] then 0 else Value(s[..|s| - 1], b) * b + DigitOf(s[|s| - 1])
  }

  lemma ValueSnoc(s: string, c: char, b: nat)
    requires Digits(s, b) && IsDigit(c, b)
    ensures Digits(s + [c], b) && Value(s + [c], b) == Value(s, b) * b + DigitOf(c)
  {
    assert (s + [c])[..|s|] == s;
  }

  lemma PowStep(b: nat, n: nat)
    ensures Pow(b, n + 1) == b * Pow(b, n)
  {}

  lemma ValueOne(c: char, b: nat)
    requires IsDigit(c, b)
    ensures Value([c], b) == DigitOf(c)
  {
    assert Value([c], b) == Value([], b) * b + DigitOf(c);
  }

  lemma Distribute(v: nat, p: nat, w: nat, b: nat)
    ensures (v * p + w) * b == v * (b * p) + w * b
  {}

  lemma {:induction false} ValueConcat(x: string, y: string, b: nat)
    requires Digits(x, b) && Digits(y, b)
    ensures Digits(x + y, b)
    ensures Value(x + y, b) == Value(x, b) * Pow(b, |y|) + Value(y, b)
  {
    if y == [] {
      assert x + y == x;
    } else {
      var y', c := y[..|y| - 1], y[|y| - 1];
      hide Value, Pow;
      PowStep(b, |y'|);
      ValueConcat(x, y', b);
      assert x + y == (x + y') + [c];
      ValueSnoc(x + y', c, b);
      Distribute(Value(x, b), Pow(b, |y'|), Value(y', b), b);
      ValueSnoc(y', c, b);
      assert y == y' + [c];
    }
  }

  lemma ValueCons(c: char, y: string, b: nat)
    requires IsDigit(c, b) && Digits(y, b)
    ensures Digits([c] + y, b)
    ensures Value([c] + y, b) == DigitOf(c) * Pow(b, |y|) + Value(y, b)
  {
    ValueOne(c, b);
    hide Value;
    ValueConcat([c], y, b);
  }

  /** Pad zeros do not change the value. */
  lemma {:induction false} LeadingZeros(k: nat, s: string, b: nat)
    requires Digits(s, b) && b >= 1
    ensures Digits(seq(k, _ => '0') + s, b) && Value(seq(k, _ => '0') + s, b) == Value(s, b)
  {
    if k == 0 {
      assert seq(k, _ => '0') + s == s;
    } else {
      LeadingZeros(k - 1, s, b);
      ValueCons('0', seq(k - 1, _ => '0') + s, b);
      assert seq(k, _ => '0') + s == ['0'] + (seq(k - 1, _ => '0') + s);
    }
  }

  /** The shortest numeral of `v`. */
  function Numeral(v: nat, b: nat): (s: string)
    requires 2 <= b <= 16
    ensures s != []
  {
    if v < b then [DigitChar(v)] else
      Smaller(v, b);
      Numeral(v / b, b) + [DigitChar(v % b)]
  }

  lemma DivMod(v: nat, b: nat)
    requires b >= 1
    ensures v == (v / b) * b + v % b && v % b < b
  {}

  lemma Smaller(v: nat, b: nat)
    requires v >= 1 && b >= 2
    ensures v / b < v
  {
    DivMod(v, b);
    AtLeastTwice(v / b, b);
  }

  lemma AtLeastTwice(q: nat, b: nat)
    requires b >= 2
    ensures q * b >= 2 * q
  {}

  lemma NumeralStep(v: nat, b: nat)
    requires 2 <= b <= 16 && v >= b
    ensures Numeral(v, b) == Numeral(v / b, b) + [DigitChar(v % b)]
  {}

  /** Printing then reading: a numeral has the value it was made from. */
  lemma {:induction false} NumeralValue(v: nat, b: nat)
    requires 2 <= b <= 16
    ensures Digits(Numeral(v, b), b) && Value(Numeral(v, b), b) == v
  {
    if v < b {
      ValueOne(DigitChar(v), b);
    } else {
      NumeralStep(v, b);
      DivMod(v, b);
      Smaller(v, b);
      hide Numeral, Value, DigitChar, DigitOf;
      NumeralValue(v / b, b);
      ValueSnoc(Numeral(v / b, b), DigitChar(v % b), b);
    }
  }

  predicate LowerHex(s: string) {
    forall k :: 0 <= k < |s| ==> s[k] in HEX
  }

  lemma HexChar(c: char)
    requires c in HEX
    ensures 0 <= DigitOf(c) < 16 && c == DigitChar(DigitOf(c))
  {}

  /** Reading then printing: a numeral with no needless zero in front is the one
      printed for its value. */
  lemma {:induction false} NumeralUnique(s: string, b: nat)
    requires 2 <= b <= 16 && s != [] && Digits(s, b) && LowerHex(s)
    requires |s| > 1 ==> s[0] != '0'
    ensures Numeral(Value(s, b), b) == s
    ensures s[0] != '0' ==> Value(s, b) > 0
  {
    var s', c := s[..|s| - 1], s[|s| - 1];
    LastDigit(s, b);
    hide LowerHex, Numeral, Value, DigitOf, DigitChar, Digits, IsDigit;
    if s' == [] {
      OneNumeral(c, b);
    } else {
      NumeralUnique(s', b);
      NumeralExtends(Value(s', b), DigitOf(c), b);
    }
  }

  lemma LastDigit(s: string, b: nat)
    requires b <= 16 && s != [] && Digits(s, b) && LowerHex(s)
    ensures var s', c := s[..|s| - 1], s[|s| - 1];
            Digits(s', b) && LowerHex(s') && c in HEX && IsDigit(c, b) && DigitOf(c) < 16 &&
            s == s' + [c] && c == DigitChar(DigitOf(c)) && Value(s, b) == Value(s', b) * b + DigitOf(c) &&
            (s' == [] ==> s == [c]) && (s' != [] ==> s'[0] == s[0])
  {
    var s', c := s[..|s| - 1], s[|s| - 1];
    HexChar(c);
    assert s == s' + [c];
  }

  lemma OneNumeral(c: char, b: nat)
    requires 2 <= b <= 16 && c in HEX && IsDigit(c, b)
    ensures Numeral(Value([c], b), b) == [c]
    ensures c != '0' ==> Value([c], b) > 0
  {
    ValueOne(c, b);
    hide Value;
    HexChar(c);
  }

  lemma NumeralExtends(v: nat, d: nat, b: nat)
    requires 2 <= b <= 16 && d < b && v >= 1
    ensures v * b + d > 0
    ensures Numeral(v * b + d, b) == Numeral(v, b) + [DigitChar(d)]
  {
    hide Numeral, DigitChar;
    DivBase(v, d, b);
    NumeralStep(v * b + d, b);
  }

  lemma DivBase(v: nat, d: nat, b: nat)
    requires b >= 2 && d < b
    ensures (v * b + d) / b == v && (v * b + d) % b == d
    ensures v >= 1 ==> v * b + d >= b
  {
    DivIs(v * b + d, b, v, d);
    Multiple(v, b);
  }

  function Reverse(s: string): (r: string)
    ensures |r| == |s|
    ensures forall k :: 0 <= k < |s| ==> r[k] == s[|s| - 1 - k]
  {
    if s == [] then [] else [s[|s| - 1]] + Reverse(s[..|s| - 1])
  }

  lemma ReverseSnoc(s: string, c: char)
    ensures Reverse(s + [c]) == [c] + Reverse(s)
  {
    assert (s + [c])[..|s|] == s;
  }
}

/** stdlib_h.vhdl: strtoul, strtol and atoi. A value that does not fit a VHDL
    integer stops the simulation there; here numbers are unbounded. Positions are
    counted from 0 in functions and from 1 in methods, as in the source. */
module Stdlib {
  import opened Numerals

  predicate IsSpace(c: char) {
    c == ' ' || 9 <= c as int <= 13
  }

  function SkipSpaces(s: string, p: nat): (q: nat)
    ensures q >= p
    decreases |s| - p
  {
    if p < |s| && IsSpace(s[p]) then SkipSpaces(s, p + 1) else p
  }

  lemma {:induction false} SpacesEnd(s: string, p: nat)
    requires p <= |s|
    ensures SkipSpaces(s, p) <= |s|
    decreases |s| - p
  {
    if p == |s| || !IsSpace(s[p]) {
    } else {
      SpacesEnd(s, p + 1);
    }
  }

  /** The end of the longest run of digits from `p`. */
  function DigitsEnd(s: string, p: nat, b: nat): (q: nat)
    ensures q >= p
    decreases |s| - p
  {
    if p < |s| && IsDigit(s[p], b) then DigitsEnd(s, p + 1, b) else p
  }

  lemma {:induction false} DigitsRun(s: string, p: nat, b: nat)
    requires p <= |s|
    ensures DigitsEnd(s, p, b) <= |s| && Digits(s[p..DigitsEnd(s, p, b)], b)
    decreases |s| - p
  {
    if p == |s| || !IsDigit(s[p], b) {
    } else {
      var q := DigitsEnd(s, p, b);
      DigitsRun(s, p + 1, b);
      forall k | 0 <= k < q - p
        ensures IsDigit(s[p..q][k], b)
      {
        if k > 0 {
          assert s[p..q][k] == s[p + 1..q][k - 1];
        }
      }
    }
  }

  /** The base, and where the digits start: base 0 is found from the prefix, and
      base 16 may have one. `seen` says the prefix itself counts as a digit. */
  datatype Prefix = Prefix(b: nat, p: nat, seen: bool)

  predicate IsX(c: char) {
    c == 'x' || c == 'X'
  }

  function PrefixAt(s: string, p: nat, base: nat): (x: Prefix)
    requires p <= |s|
    ensures p <= x.p <= |s|
  {
    if base == 0 && p < |s| && s[p] == '0' then
      if p + 1 >= |s| then Prefix(0, p + 1, false)
      else if IsX(s[p + 1]) then Prefix(16, p + 2, false)
      else Prefix(8, p + 1, true)
    else if base == 0 && p < |s| then Prefix(10, p, false)
    else if base == 16 && p + 1 < |s| && s[p] == '0' && IsX(s[p + 1]) then Prefix(16, p + 2, false)
    else Prefix(base, p, false)
  }

  /** A number read: its value, where it ends, and whether there was one. */
  datatype Reading = Reading(value: nat, end: nat, found: bool)

  /** The number whose digits follow the prefix `x`. */
  function Number(s: string, x: Prefix): Reading
    requires x.p <= |s|
  {
    DigitsRun(s, x.p, x.b);
    var e := DigitsEnd(s, x.p, x.b);
    Reading(Value(s[x.p..e], x.b), e, e > x.p || x.seen)
  }

  /** The number that starts at `p`, after any spaces. */
  function Read(s: string, p: nat, base: nat): Reading
    requires p <= |s|
  {
    SpacesEnd(s, p);
    Number(s, PrefixAt(s, SkipSpaces(s, p), base))
  }

  method SkipBlanks(s: string, p0: nat) returns (p: nat)
    requires 1 <= p0 <= |s| + 1
    ensures p - 1 == SkipSpaces(s, p0 - 1) && p0 <= p <= |s| + 1
  {
    p := p0;
    while p <= |s|
      invariant p0 <= p <= |s| + 1
      invariant SkipSpaces(s, p - 1) == SkipSpaces(s, p0 - 1)
    {
      if IsSpace(s[p - 1]) {
        p := p + 1;
      } else {
        break;
      }
    }
  }

  method DetectBase(s: string, p0: nat, base: nat) returns (b: nat, p: nat, f: nat)
    requires 1 <= p0 <= |s| + 1
    ensures p0 <= p <= |s| + 1 && f <= 1
    ensures PrefixAt(s, p0 - 1, base) == Prefix(b, p - 1, f == 1)
  {
    p, f, b := p0, 0, base;
    if b == 0 {
      if p <= |s| {
        if s[p - 1] == '0' {
          p := p + 1;
          if p <= |s| {
            if s[p - 1] == 'x' || s[p - 1] == 'X' {
              p := p + 1;
              b := 16;
            } else {
              f := 1;
              b := 8;
            }
          }
        } else {
          b := 10;
        }
      }
    } else if b == 16 {
      if p < |s| {
        if s[p - 1] == '0' && (s[p] == 'x' || s[p] == 'X') {
          p := p + 2;
        }
      }
    }
  }

  method ReadDigits(s: string, p0: nat, b: nat, f0: nat) returns (r: nat, p: nat, f: nat)
    requires 1 <= p0 <= |s| + 1 && f0 <= 1
    ensures p >= 1 && f <= 1
    ensures Number(s, Prefix(b, p0 - 1, f0 == 1)) == Reading(r, p - 1, f == 1)
  {
    hide Value, DigitsEnd, IsDigit;
    r, p, f := 0, p0, f0;
    NoDigits(s, p0 - 1, b);
    while p <= |s|
      invariant p0 <= p <= |s| + 1
      invariant Digits(s[p0 - 1..p - 1], b) && r == Value(s[p0 - 1..p - 1], b)
      invariant DigitsEnd(s, p - 1, b) == DigitsEnd(s, p0 - 1, b)
      invariant f == if f0 == 1 || p > p0 then 1 else 0
    {
      var c := s[p - 1];
      var d := DigitOf(c);
      DigitStep(s, p - 1, b);
      if d == -1 {
        break;
      }
      if d >= b {
        break;
      }
      ReadDigit(s, p0 - 1, p - 1, b, r);
      r, f, p := b * r + d, 1, p + 1;
    }
    DigitStep(s, p - 1, b);
  }

  lemma NoDigits(s: string, p: nat, b: nat)
    requires p <= |s|
    ensures Digits(s[p..p], b) && Value(s[p..p], b) == 0
  {}

  lemma ReadDigit(s: string, from: nat, p: nat, b: nat, r: nat)
    requires from <= p < |s| && Digits(s[from..p], b) && r == Value(s[from..p], b) && IsDigit(s[p], b)
    ensures Digits(s[from..p + 1], b) && b * r + DigitOf(s[p]) == Value(s[from..p + 1], b)
  {
    hide Value, DigitOf;
    ValueSnoc(s[from..p], s[p], b);
    assert s[from..p + 1] == s[from..p] + [s[p]];
  }

  lemma DigitStep(s: string, p: nat, b: nat)
    ensures DigitsEnd(s, p, b) == if p < |s| && IsDigit(s[p], b) then DigitsEnd(s, p + 1, b) else p
    ensures p < |s| ==> DigitOf(s[p]) >= -1 && (IsDigit(s[p], b) <==> DigitOf(s[p]) != -1 && DigitOf(s[p]) < b)
  {}

  /** `endptr` is set, unless it is 0, after the number, or where it was looked for
      if there is none. */
  method Strtoul(s: string, si: nat, endptr0: nat, base: nat) returns (result: nat, endptr: nat)
    requires 1 <= si <= |s| + 1
    ensures var n := Read(s, si - 1, base);
            result == n.value &&
            endptr == if endptr0 == 0 then 0 else if n.found then n.end + 1 else si
  {
    var p := SkipBlanks(s, si);
    var b, f;
    b, p, f := DetectBase(s, p, base);
    var r;
    r, p, f := ReadDigits(s, p, b, f);
    if f == 0 {
      p := si;
    }
    endptr := endptr0;
    if endptr != 0 {
      endptr := p;
    }
    result := r;
  }

  // An `out` parameter that is never assigned has the leftmost value of its type.
  const INTEGER_LEFT := -0x8000_0000

  /** Where the number starts, after blanks and a sign. */
  function AfterSign(s: string, p: nat): (q: nat)
    requires p <= |s|
    ensures p <= q <= |s|
  {
    SpacesEnd(s, p);
    var q := SkipSpaces(s, p);
    if q < |s| && (s[q] == '-' || s[q] == '+') then q + 1 else q
  }

  predicate Minus(s: string, p: nat) {
    var q := SkipSpaces(s, p);
    q < |s| && s[q] == '-'
  }

  /** What strtol makes of the text from `p`; blanks alone leave the result as it
      was. */
  function Signed(s: string, p: nat, base: nat): int
    requires p <= |s|
  {
    var v: int := Read(s, AfterSign(s, p), base).value;
    if SkipSpaces(s, p) >= |s| then INTEGER_LEFT else if Minus(s, p) then -v else v
  }

  method Strtol(s: string, si: nat, endptr0: nat, base: nat) returns (result: int, endptr: nat)
    requires 1 <= si <= |s| + 1
    ensures result == Signed(s, si - 1, base)
    ensures SkipSpaces(s, si - 1) >= |s| ==> endptr == if endptr0 == |s| + 1 then si else endptr0
    ensures SkipSpaces(s, si - 1) < |s| && endptr0 == 0 ==> endptr == 0
    ensures SkipSpaces(s, si - 1) < |s| && endptr0 != 0 ==>
              var n := Read(s, AfterSign(s, si - 1), base);
              endptr == if n.found then n.end + 1 else si
  {
    hide AfterSign, Minus, Read, SkipSpaces;
    result, endptr := INTEGER_LEFT, endptr0;
    var r := 0;
    var p := SkipBlanks(s, si);
    if p <= |s| {
      var minus;
      minus, p := SkipSign(s, si, p);
      FoundIsLater(s, p - 1, base);
      r, endptr := Strtoul(s, p, endptr, base);
      var n: int := r;
      result := if minus then -n else n;
    }
    if r == 0 && endptr != 0 && endptr == p {
      endptr := si;
    }
  }

  method SkipSign(s: string, ghost si: nat, p0: nat) returns (minus: bool, p: nat)
    requires 1 <= si <= |s| + 1 && p0 >= 1 && p0 - 1 == SkipSpaces(s, si - 1) < |s|
    ensures p >= 1 && p - 1 == AfterSign(s, si - 1) && minus == Minus(s, si - 1)
  {
    p := p0;
    minus := s[p - 1] == '-';
    if minus || s[p - 1] == '+' {
      p := p + 1;
    }
  }

  lemma FoundIsLater(s: string, p: nat, base: nat)
    requires p <= |s|
    ensures var n := Read(s, p, base);
            (n.found ==> n.end > p) && (!n.found ==> n.value == 0)
  {
    SpacesEnd(s, p);
  }

  method Atoi(s: string) returns (result: int)
    ensures result == Signed(s, 0, 10)
  {
    var endptr;
    result, endptr := Strtol(s, 1, 0, 10);
  }

  function Blanks(k: nat): string {
    seq(k, _ => ' ')
  }

  /** atoi of blanks, a sign, digits and more blanks is the signed number. */
  lemma ReadPadded(left: nat, sign: string, digits: string, right: nat)
    requires Digits(digits, 10) && digits != []
    requires sign in {"", "-", "+"}
    ensures var v: int := Value(digits, 10);
            Signed(Blanks(left) + sign + digits + Blanks(right), 0, 10) == if sign == "-" then -v else v
  {
    var s := Blanks(left) + sign + digits + Blanks(right);
    var from := left + |sign|;
    var end := from + |digits|;
    assert s[from..end] == digits;
    assert s[from] == digits[0];
    assert IsDigit(digits[0], 10);
    SkipsBlanks(s, 0, left);
    SkipsBlanks(s, from, from);
    TakesDigits(s, from, end, 10);
    assert AfterSign(s, 0) == from;
  }

  lemma {:induction false} SkipsBlanks(s: string, p: nat, q: nat)
    requires p <= q && forall k :: p <= k < q ==> k < |s| && IsSpace(s[k])
    requires q < |s| && !IsSpace(s[q])
    ensures SkipSpaces(s, p) == q
    decreases q - p
  {
    if p == q {
    } else {
      assert IsSpace(s[p]);
      SkipsBlanks(s, p + 1, q);
    }
  }

  lemma {:induction false} TakesDigits(s: string, p: nat, q: nat, b: nat)
    requires p <= q <= |s| && Digits(s[p..q], b) && (q < |s| ==> !IsDigit(s[q], b))
    ensures DigitsEnd(s, p, b) == q
    decreases q - p
  {
    if p == q {
    } else {
      assert s[p] == s[p..q][0];
      assert s[p + 1..q] == s[p..q][1..];
      TakesDigits(s, p + 1, q, b);
    }
  }
}
