/** The numeric conversions of sbufscanf in stdio_h.vhdl: `%x`, `%o` and `%d`. */
module Scanf {
  import opened Numerals
  import opened BitStrings
  import opened Printf
  import opened NumeralTexts
  import RadixPrint
  import Stdlib

  datatype Conversion = Hex | Octal | Decimal

  function Base(f: Conversion): nat {
    match f
    case Hex => 16
    case Octal => 8
    case Decimal => 10
  }

  /** The character at hand: NUL once the input is used up. */
  function At(input: string, i: nat): char {
    if i < |input| then input[i] else BitStrings.NUL
  }

  predicate White(c: char) {
    c == ' ' || (9 <= c as int <= 13 && c as int != 12)
  }

  function SkipWhite(input: string, i: nat): nat
    decreases |input| - i
  {
    if i < |input| && White(input[i]) then SkipWhite(input, i + 1) else i
  }

  predicate IsSign(c: char) {
    c == '+' || c == '-'
  }

  /** The text a conversion of width `m` may look at, 0 being no limit. */
  function Window(input: string, from: nat, m: nat): string {
    if m != 0 && from + m < |input| then input[..from + m] else input
  }

  /** What a conversion takes: a sign, then the longest run of digits. */
  datatype Taken = Taken(minus: bool, digits: string, end: nat)

  function Take(input: string, i: nat, b: nat, m: nat): Taken
    requires i <= |input|
  {
    WhiteEnd(input, i);
    var p := SkipWhite(input, i);
    var w := Window(input, p, m);
    var q := if p < |w| && IsSign(w[p]) then p + 1 else p;
    Stdlib.DigitsRun(w, q, b);
    var e := Stdlib.DigitsEnd(w, q, b);
    Taken(p < |w| && w[p] == '-', w[q..e], e)
  }

  lemma {:induction false} WhiteEnd(input: string, i: nat)
    requires i <= |input|
    ensures i <= SkipWhite(input, i) <= |input|
    decreases |input| - i
  {
    if i == |input| || !White(input[i]) {
    } else {
      WhiteEnd(input, i + 1);
    }
  }

  lemma TakenDigits(input: string, i: nat, b: nat, m: nat)
    requires i <= |input|
    ensures Digits(Take(input, i, b, m).digits, b)
  {
    WhiteEnd(input, i);
    var p := SkipWhite(input, i);
    var w := Window(input, p, m);
    Stdlib.DigitsRun(w, if p < |w| && IsSign(w[p]) then p + 1 else p, b);
  }

  /** The number a decimal conversion reads. */
  function DecimalOf(t: Taken): int
    requires Digits(t.digits, 10)
  {
    var v: int := Value(t.digits, 10);
    if t.minus then -v else v
  }

  // ---- Bits of a digit ----

  const PF_HEX2: seq<string> :=
    ["0000", "0001", "0010", "0011", "0100", "0101", "0110", "0111",
     "1000", "1001", "1010", "1011", "1100", "1101", "1110", "1111"]

  /** Four bits for a hexadecimal digit, the last three of them for an octal one. */
  function DigitBits(n: nat, b: nat): string
    requires n < b && (b == 8 || b == 16)
  {
    if b == 8 then PF_HEX2[n][1..4] else PF_HEX2[n][0..4]
  }

  lemma DigitBitsValue(n: nat, b: nat)
    requires n < b && (b == 8 || b == 16)
    ensures IsBits(DigitBits(n, b)) && Pow(2, |DigitBits(n, b)|) == b && RadixPrint.NoNul(DigitBits(n, b))
    ensures Unsigned(Clean(DigitBits(n, b))) == n
  {
    HexTable(n);
    var s := DigitBits(n, b);
    var t := PF_HEX2[n];
    SmallPowers();
    hide Clean, Unsigned, Pow;
    CleanBits(s);
    if b == 8 {
      assert ToBits(s) == [t[1] == '1', t[2] == '1', t[3] == '1'];
      Unsigned3(t[1] == '1', t[2] == '1', t[3] == '1');
    } else {
      assert ToBits(s) == [t[0] == '1', t[1] == '1', t[2] == '1', t[3] == '1'];
      Unsigned4(t[0] == '1', t[1] == '1', t[2] == '1', t[3] == '1');
    }
  }

  lemma SmallPowers()
    ensures Pow(2, 3) == 8 && Pow(2, 4) == 16
  {
    assert Pow(2, 1) == 2 && Pow(2, 2) == 4;
  }

  /** The table holds the bits of its indices. */
  lemma HexTable(n: nat)
    requires n < 16
    ensures var t := PF_HEX2[n];
            |t| == 4 && IsBits(t) && (n < 8 ==> t[0] == '0') &&
            n == 8 * Bit(t[0] == '1') + 4 * Bit(t[1] == '1') + 2 * Bit(t[2] == '1') + Bit(t[3] == '1')
  {}

  function Bit(b: bool): nat {
    if b then 1 else 0
  }

  lemma Unsigned3(x: bool, y: bool, z: bool)
    ensures Unsigned([x, y, z]) == 4 * Bit(x) + 2 * Bit(y) + Bit(z)
  {
    UnsignedSnoc([], x);
    UnsignedSnoc([x], y);
    UnsignedSnoc([x, y], z);
    assert [] + [x] == [x] && [x] + [y] == [x, y] && [x, y] + [z] == [x, y, z];
  }

  lemma Unsigned4(x: bool, y: bool, z: bool, w: bool)
    ensures Unsigned([x, y, z, w]) == 8 * Bit(x) + 4 * Bit(y) + 2 * Bit(z) + Bit(w)
  {
    Unsigned3(x, y, z);
    UnsignedSnoc([x, y, z], w);
    assert [x, y, z] + [w] == [x, y, z, w];
  }

  /** Appending the bits of a digit appends the digit to the value. */
  lemma AppendDigit(s: string, n: nat, b: nat)
    requires RadixPrint.NoNul(s) && n < b && (b == 8 || b == 16)
    ensures RadixPrint.NoNul(s + DigitBits(n, b))
    ensures Unsigned(Clean(s + DigitBits(n, b))) == Unsigned(Clean(s)) * b + n
  {
    var d := DigitBits(n, b);
    DigitBitsValue(n, b);
    hide Clean, Unsigned, DigitBits;
    CleanBits(d);
    assert |Clean(d)| == |d|;
    RadixPrint.CleanConcat(s, d);
    RadixPrint.UnsignedConcat(Clean(s), Clean(d));
  }

  // ---- The loop ----

  /** Scans one number from input(pos0), writing its bits to `s`; with `suppress`
      (the `*` flag) the digits of `%x` and `%o` are read but not written. */
  method Scan(input: string, pos0: nat, f: Conversion, m: nat, suppress: bool)
    returns (s: string, pos: nat)
    requires pos0 <= |input|
    requires var t := Take(input, pos0, Base(f), m);
             f.Decimal? ==> Digits(t.digits, 10) && Value(t.digits, 10) <= MAX_INTEGER
    ensures var t := Take(input, pos0, Base(f), m);
            pos == t.end && Digits(t.digits, Base(f)) &&
            (!f.Decimal? && !suppress ==> Unsigned(Clean(s)) == Value(t.digits, Base(f))) &&
            (!f.Decimal? && suppress ==> s == "0") &&
            (f.Decimal? ==> Signed(Clean(s)) == Coded(DecimalOf(t)))
  {
    TakenDigits(input, pos0, Base(f), m);
    pos := SkipSpace(input, pos0);
    var first := pos;
    var ms: int := 1;
    ghost var w := Window(input, first, m);
    if IsSign(At(input, pos)) {
      ms := if At(input, pos) == '-' then -1 else 1;
      pos := pos + 1;
    }
    var ax;
    s, ax, pos := TakeDigits(input, first, pos, f, m, suppress);
    if f.Decimal? {
      s := Pf(ms * ax);
    }
  }

  method SkipSpace(input: string, pos0: nat) returns (pos: nat)
    requires pos0 <= |input|
    ensures pos == SkipWhite(input, pos0) && pos <= |input|
  {
    WhiteEnd(input, pos0);
    pos := pos0;
    while White(At(input, pos))
      invariant pos0 <= pos <= |input|
      invariant SkipWhite(input, pos) == SkipWhite(input, pos0)
      decreases |input| - pos
    {
      pos := pos + 1;
    }
  }

  method TakeDigits(input: string, first: nat, pos0: nat, f: Conversion, m: nat, suppress: bool)
    returns (s: string, ax: nat, pos: nat)
    requires first <= pos0 <= |Window(input, first, m)| && pos0 <= first + 1
    ensures var w := Window(input, first, m);
            pos == Stdlib.DigitsEnd(w, pos0, Base(f)) && pos <= |w| && Digits(w[pos0..pos], Base(f)) &&
            (f.Decimal? ==> ax == Value(w[pos0..pos], 10)) &&
            (!f.Decimal? && !suppress ==> Unsigned(Clean(s)) == Value(w[pos0..pos], Base(f))) &&
            (!f.Decimal? && suppress ==> s == "0")
  {
    ghost var w := Window(input, first, m);
    var b := Base(f);
    s, ax, pos := if f.Decimal? then "" else "0", 0, pos0;
    ZeroBit();
    assert w[pos0..pos0] == [];
    while true
      invariant pos0 <= pos <= |w| && Digits(w[pos0..pos], b)
      invariant Stdlib.DigitsEnd(w, pos, b) == Stdlib.DigitsEnd(w, pos0, b)
      invariant f.Decimal? ==> ax == Value(w[pos0..pos], 10)
      invariant !f.Decimal? && suppress ==> s == "0"
      invariant !f.Decimal? && !suppress ==> RadixPrint.NoNul(s) && Unsigned(Clean(s)) == Value(w[pos0..pos], b)
      decreases |w| - pos
    {
      hide Clean, Unsigned, Value, DigitOf, DigitBits, Stdlib.DigitsEnd;
      Stdlib.DigitStep(w, pos, b);
      if m != 0 && pos - first >= m {
        break;
      }
      var c := At(input, pos);
      NulIsNoDigit();
      if !IsDigit(c, b) {
        break;
      }
      Stdlib.ReadDigit(w, pos0, pos, b, Value(w[pos0..pos], b));
      s, ax := TakeDigit(s, ax, DigitOf(c), f, suppress, Value(w[pos0..pos], b));
      pos := pos + 1;
    }
  }

  /** One digit more; `v` is the value of those before it. */
  method TakeDigit(s0: string, ax0: nat, n: nat, f: Conversion, suppress: bool, ghost v: nat)
    returns (s: string, ax: nat)
    requires n < Base(f) && (f.Decimal? ==> ax0 == v)
    requires !f.Decimal? && suppress ==> s0 == "0"
    requires !f.Decimal? && !suppress ==> RadixPrint.NoNul(s0) && Unsigned(Clean(s0)) == v
    ensures f.Decimal? ==> ax == Base(f) * v + n
    ensures !f.Decimal? && suppress ==> s == "0"
    ensures !f.Decimal? && !suppress ==> RadixPrint.NoNul(s) && Unsigned(Clean(s)) == Base(f) * v + n
  {
    hide Clean, Unsigned, DigitBits;
    s, ax := s0, ax0;
    if f.Decimal? {
      ax := ax * 10 + n;
    } else if !suppress {
      AppendDigit(s, n, Base(f));
      s := s + DigitBits(n, Base(f));
    }
  }

  lemma NulIsNoDigit()
    ensures forall b :: !IsDigit(BitStrings.NUL, b)
  {}

  lemma ZeroBit()
    ensures RadixPrint.NoNul("0") && Unsigned(Clean("0")) == 0
  {
    RadixPrint.NoOnes("0");
  }

  // ---- Printing then scanning ----

  lemma {:induction false} SkipsBlanks(s: string, p: nat, q: nat)
    requires p <= q && forall k :: p <= k < q ==> k < |s| && s[k] == ' '
    requires q < |s| && !White(s[q])
    ensures SkipWhite(s, p) == q
    decreases q - p
  {
    if p == q {
    } else {
      assert s[p] == ' ';
      SkipsBlanks(s, p + 1, q);
    }
  }

  /** A number between blanks is what an unlimited scan takes. */
  lemma TakesField(before: nat, sign: string, digits: string, after: nat, b: nat)
    requires b <= 16 && Digits(digits, b) && digits != [] && sign in {"", "-", "+"}
    ensures var text := Stdlib.Blanks(before) + sign + digits + Stdlib.Blanks(after);
            Take(text, 0, b, 0) == Taken(sign == "-", digits, before + |sign| + |digits|)
  {
    var text := Stdlib.Blanks(before) + sign + digits + Stdlib.Blanks(after);
    var q := before + |sign|;
    var e := q + |digits|;
    assert text[q..e] == digits && text[q] == digits[0];
    assert IsDigit(digits[0], b);
    SkipsBlanks(text, 0, before);
    Stdlib.TakesDigits(text, q, e, b);
  }

  /** A scan of at most `m` characters, 0 being no limit, by character codes: blanks are
      passed over, and a sign and the digits within the limit are taken. */
  lemma ScansText(pre: string, sign: string, t: string, rest: string, ds: seq<nat>, b: nat, m: nat)
    requires forall k :: 0 <= k < |pre| ==> pre[k] as int in {9, 10, 11, 13, 32}
    requires sign in {"", "-", "+"} && b <= 16 && Writes(t, ds, b) && Stops(rest) && ds != []
    requires m == 0 || m >= |sign|
    ensures var n := if m == 0 || m >= |sign| + |t| then |t| else m - |sign|;
            var taken := Take(pre + sign + t + rest, 0, b, m);
            taken == Taken(sign == "-", t[..n], |pre| + |sign| + n) &&
            Digits(taken.digits, b) && Value(taken.digits, b) == Horner(ds[..n], b)
  {
    hide Value, Horner, Take, Window;
    var text := pre + sign + t + rest;
    var n := if m == 0 || m >= |sign| + |t| then |t| else m - |sign|;
    var p := |pre|;
    assert sign == "" ==> text[p] == t[0];
    assert sign != "" ==> text[p] == sign[0];
    WhiteSkipped(text, 0, p);
    WindowDigits(pre, sign, t, rest, ds, b, m);
    TakeFrom(text, b, m, p);
    WritesValue(t[..n], ds[..n], b);
  }

  lemma TakeFrom(text: string, b: nat, m: nat, p: nat)
    requires SkipWhite(text, 0) == p <= |text|
    ensures var w := Window(text, p, m);
            var q := if p < |w| && (w[p] == '+' || w[p] == '-') then p + 1 else p;
            var e := Stdlib.DigitsEnd(w, q, b);
            q <= e <= |w| && Take(text, 0, b, m) == Taken(p < |w| && w[p] == '-', w[q..e], e)
  {
    TakenDigits(text, 0, b, m);
    var w := Window(text, p, m);
    Stdlib.DigitsRun(w, if p < |w| && IsSign(w[p]) then p + 1 else p, b);
  }

  /** Where the digits end in what the scan may look at. */
  lemma WindowDigits(pre: string, sign: string, t: string, rest: string, ds: seq<nat>, b: nat, m: nat)
    requires sign in {"", "-", "+"} && b <= 16 && Writes(t, ds, b) && Stops(rest) && ds != []
    requires m == 0 || m >= |sign|
    ensures var n := if m == 0 || m >= |sign| + |t| then |t| else m - |sign|;
            var w := Window(pre + sign + t + rest, |pre|, m);
            var q := |pre| + |sign|;
            q + n <= |w| && w[..q] == pre + sign && w[q..q + n] == t[..n] &&
            Stdlib.DigitsEnd(w, q, b) == q + n
  {
    var n := if m == 0 || m >= |sign| + |t| then |t| else m - |sign|;
    var q := |pre| + |sign|;
    var w := Window(pre + sign + t + rest, |pre|, m);
    WritesValue(t, ds, b);
    WindowText(pre, sign, t, rest, m);
    StopIsNoDigit(rest, b);
    hide Value, Horner, Writes, Window, Stops, IsDigit, Stdlib.DigitsEnd;
    Stdlib.TakesDigits(w, q, q + n, b);
  }

  lemma WindowText(pre: string, sign: string, t: string, rest: string, m: nat)
    requires m == 0 || m >= |sign|
    ensures var n := if m == 0 || m >= |sign| + |t| then |t| else m - |sign|;
            var w := Window(pre + sign + t + rest, |pre|, m);
            var q := |pre| + |sign|;
            q + n <= |w| && w[..q] == pre + sign && w[q..q + n] == t[..n] &&
            (q + n < |w| ==> rest != [] && n == |t| && w[q + n] == rest[0])
  {
    var n := if m == 0 || m >= |sign| + |t| then |t| else m - |sign|;
    var text := pre + sign + t + rest;
    var q := |pre| + |sign|;
    assert text == pre + sign + (t + rest);
    assert text[q..q + n] == t[..n];
  }

  lemma {:induction false} WhiteSkipped(s: string, p: nat, q: nat)
    requires p <= q < |s| && s[q] as int !in {9, 10, 11, 13, 32}
    requires forall k :: p <= k < q ==> s[k] as int in {9, 10, 11, 13, 32}
    ensures SkipWhite(s, p) == q
    decreases q - p
  {
    if p == q {
    } else {
      WhiteSkipped(s, p + 1, q);
    }
  }

  /** `%x` and `%o`: the bits scanned from the text printed for a bit string have
      its value, for strings of any length, with or without padding. */
  lemma RadixRoundTrip(bits: seq<bool>, b: nat, left: bool, zero: bool, m: nat)
    requires b == 8 || b == 16
    ensures var t := Take(RadixText(Unsigned(bits), b, left, zero, m), 0, b, 0);
            Digits(t.digits, b) && Value(t.digits, b) == Unsigned(bits)
  {
    var v := Unsigned(bits);
    var digits := Numeral(v, b);
    var zeros := if zero && !left then Short(|digits|, m) else 0;
    var body := Zeros(zeros) + digits;
    NumeralValue(v, b);
    LeadingZeros(zeros, digits, b);
    hide Numeral, Value, Field, Unsigned, Take, DigitOf;
    assert RadixText(v, b, left, zero, m) == Field(body, left, m);
    FieldBlanks(body, left, m);
    var k := Short(|body|, m);
    UnsignedField(if left then 0 else k, body, if left then k else 0, b);
  }

  /** Prints a bit string with `%x` or `%o` and scans the text back: the bits written have
      the value of those printed. */
  method PrintAndScan(s: string, octal: bool, left: bool, zero: bool, m: nat) returns (out: string)
    ensures Unsigned(Clean(out)) == Unsigned(Clean(s))
  {
    hide Clean, Unsigned, Take, Value;
    var text := RadixPrint.PrintRadix(s, octal, left, zero, m);
    RadixRoundTrip(Clean(s), if octal then 8 else 16, left, zero, m);
    var pos;
    out, pos := Scan(text, 0, if octal then Octal else Hex, 0, false);
  }

  lemma UnsignedField(before: nat, body: string, after: nat, b: nat)
    requires b <= 16 && Digits(body, b) && body != []
    ensures Take(Stdlib.Blanks(before) + body + Stdlib.Blanks(after), 0, b, 0).digits == body
  {
    hide Take;
    TakesField(before, "", body, after, b);
    assert Stdlib.Blanks(before) + "" + body == Stdlib.Blanks(before) + body;
  }

  /** `%d`: the text printed for `v` is scanned as `v`, whatever the flags and the
      width. */
  lemma DecimalTextTaken(v: int, fl: Flags, m: nat)
    ensures var t := Take(DecimalText(v, fl, m), 0, 10, 0);
            Digits(t.digits, 10) && DecimalOf(t) == v
  {
    var sign, digits := Sign(v < 0, fl), Numeral(Abs(v), 10);
    var zeros := if fl.zero && !fl.left then Short(|sign| + |digits|, m) else 0;
    var body := sign + Zeros(zeros) + digits;
    NumeralValue(Abs(v), 10);
    hide Numeral, Value, Field, DigitOf;
    assert DecimalText(v, fl, m) == Field(body, fl.left, m);
    FieldBlanks(body, fl.left, m);
    var k := Short(|body|, m);
    FieldTaken(if fl.left then 0 else k, sign, zeros, digits, if fl.left then k else 0);
  }

  lemma FieldTaken(before: nat, sign: string, zeros: nat, digits: string, after: nat)
    requires Digits(digits, 10) && digits != []
    requires sign in {"", "-", "+", " ", "0"}
    ensures var v: int := Value(digits, 10);
            var text := Stdlib.Blanks(before) + (sign + Zeros(zeros) + digits) + Stdlib.Blanks(after);
            var t := Take(text, 0, 10, 0);
            Digits(t.digits, 10) && DecimalOf(t) == if sign == "-" then -v else v
  {
    hide Value, Take, DigitOf, IsDigit;
    var before', sign', digits' := FieldSplit(before, sign, zeros, digits, after);
    TakesField(before', sign', digits', after, 10);
  }

  /** Printing a bit string with `%d` and scanning the text back with `%d` gives a
      bit string of the same value for the non-negative and the odd, and for no
      others. */
  lemma DecimalRoundTrip(bits: seq<bool>, fl: Flags, m: nat)
    ensures var t := Take(DecimalText(Signed(bits), fl, m), 0, 10, 0);
            Digits(t.digits, 10) &&
            (Coded(DecimalOf(t)) == Signed(bits) <==> Signed(bits) >= 0 || Signed(bits) % 2 != 0)
  {
    DecimalTextTaken(Signed(bits), fl, m);
    CodedExactly(Signed(bits));
  }
}
