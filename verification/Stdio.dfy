/** The numeric conversions of sbufprintf in stdio_h.vhdl: `%d`, `%u`, `%x`, `%o`,
    without precision or prefix. */
module Printf {
  import opened Numerals
  import opened BitStrings
  import opened NumeralTexts
  import Stdlib

  datatype Flags = Flags(left: bool, plus: bool, space: bool, zero: bool)

  function Zeros(k: nat): string {
    seq(k, _ => '0')
  }

  /** How far `n` is short of `m`. */
  function Short(n: nat, m: nat): nat {
    if n < m then m - n else 0
  }

  /** What stands in front of the digits of `v`. */
  function Sign(negative: bool, fl: Flags): string {
    if negative then "-"
    else if fl.plus then "+"
    else if fl.space then (if fl.zero then "0" else " ")
    else ""
  }

  function Field(body: string, left: bool, m: nat): string {
    if left then body + Stdlib.Blanks(Short(|body|, m)) else Stdlib.Blanks(Short(|body|, m)) + body
  }

  /** The text of `%d`: blanks, the sign, pad zeros, the numeral, blanks. */
  function DecimalText(v: int, fl: Flags, m: nat): string {
    var sign, digits := Sign(v < 0, fl), Numeral(Abs(v), 10);
    var zeros := if fl.zero && !fl.left then Short(|sign| + |digits|, m) else 0;
    Field(sign + Zeros(zeros) + digits, fl.left, m)
  }

  /** The text of `%x` and `%o`. */
  function RadixText(v: nat, b: nat, left: bool, zero: bool, m: nat): string
    requires 2 <= b <= 16
  {
    var digits := Numeral(v, b);
    Field(Zeros(if zero && !left then Short(|digits|, m) else 0) + digits, left, m)
  }

  /** A field is at least as wide as asked. */
  lemma FieldWidth(body: string, left: bool, m: nat)
    ensures |Field(body, left, m)| == if |body| < m then m else |body|
  {}

  /** A field as one piece between blanks. */
  lemma FieldBlanks(body: string, left: bool, m: nat)
    ensures var k := Short(|body|, m);
            Field(body, left, m) == Stdlib.Blanks(if left then 0 else k) + body + Stdlib.Blanks(if left then k else 0)
  {}

  /** Whatever `%d` prints in front of the digits is blanks, a real sign or none, and
      zeros that do not count. */
  lemma FieldSplit(before: nat, sign: string, zeros: nat, digits: string, after: nat)
    returns (before': nat, sign': string, digits': string)
    requires Digits(digits, 10) && digits != []
    requires sign in {"", "-", "+", " ", "0"}
    ensures sign' in {"", "-", "+"} && (sign' == "-" <==> sign == "-")
    ensures Digits(digits', 10) && digits' != [] && Value(digits', 10) == Value(digits, 10)
    ensures Stdlib.Blanks(before) + (sign + Zeros(zeros) + digits) + Stdlib.Blanks(after) ==
            Stdlib.Blanks(before') + sign' + digits' + Stdlib.Blanks(after)
  {
    hide Value, DigitOf;
    LeadingZeros(zeros, digits, 10);
    before', sign', digits' := before, sign, Zeros(zeros) + digits;
    if sign == "0" {
      LeadingZeros(1, digits', 10);
      sign', digits' := "", seq(1, _ => '0') + digits';
    } else if sign == " " {
      before', sign' := before + 1, "";
    }
  }

  lemma FieldReads(before: nat, sign: string, zeros: nat, digits: string, after: nat)
    requires Digits(digits, 10) && digits != []
    requires sign in {"", "-", "+", " ", "0"}
    ensures var v: int := Value(digits, 10);
            var text := Stdlib.Blanks(before) + (sign + Zeros(zeros) + digits) + Stdlib.Blanks(after);
            Stdlib.Signed(text, 0, 10) == if sign == "-" then -v else v
  {
    hide Value, Stdlib.Signed, DigitOf;
    var before', sign', digits' := FieldSplit(before, sign, zeros, digits, after);
    Stdlib.ReadPadded(before', sign', digits', after);
  }

  /** The text of `%d` is read back by atoi as the number printed, whatever the
      flags and the width: no pad zero gets in front of a sign. */
  lemma DecimalRoundTrip(v: int, fl: Flags, m: nat)
    ensures |DecimalText(v, fl, m)| >= m
    ensures Stdlib.Signed(DecimalText(v, fl, m), 0, 10) == v
  {
    var sign, digits := Sign(v < 0, fl), Numeral(Abs(v), 10);
    var zeros := if fl.zero && !fl.left then Short(|sign| + |digits|, m) else 0;
    var body := sign + Zeros(zeros) + digits;
    NumeralValue(Abs(v), 10);
    hide Numeral, Value, Stdlib.Signed, Field;
    assert DecimalText(v, fl, m) == Field(body, fl.left, m);
    FieldWidth(body, fl.left, m);
    FieldBlanks(body, fl.left, m);
    var k := Short(|body|, m);
    FieldReads(if fl.left then 0 else k, sign, zeros, digits, if fl.left then k else 0);
  }

  // ---- What the texts look like ----

  function Padding(k: int, c: char): string {
    seq(if k > 0 then k else 0, _ => c)
  }

  /** A number with a sign, real or asked for, by flags: blanks before it, zeros inside
      it, or blanks after it make up the width. */
  lemma LooksSigned(v: int, fl: Flags, m: nat)
    requires v < 0 || fl.plus
    ensures var d := Numeral(if v < 0 then -v else v, 10);
            var k := m - |d| - 1;
            var c := if v < 0 then '-' else '+';
            DecimalText(v, fl, m) == if fl.left then [c] + d + Padding(k, ' ')
                                     else if fl.zero then [c] + Padding(k, '0') + d
                                     else Padding(k, ' ') + [c] + d
  {
    hide Numeral;
    var d := Numeral(Abs(v), 10);
    var sign := if v < 0 then "-" else "+";
    assert Sign(v < 0, fl) == sign;
    FieldLooks(sign, d, fl.left, fl.zero, m);
  }

  /** Without either, the flag for a blank puts a blank in front, or a zero if zeros
      are asked for. */
  lemma LooksSpaced(v: nat, fl: Flags, m: nat)
    requires !fl.plus && fl.space
    ensures var d := Numeral(v, 10);
            var k := m - |d| - 1;
            DecimalText(v, fl, m) == if fl.left then [if fl.zero then '0' else ' '] + d + Padding(k, ' ')
                                     else if fl.zero then ['0'] + Padding(k, '0') + d
                                     else Padding(k, ' ') + [' '] + d
  {
    hide Numeral;
    FieldLooks(if fl.zero then "0" else " ", Numeral(v, 10), fl.left, fl.zero, m);
  }

  /** And with no flag for the sign at all, nothing. */
  lemma LooksPlain(v: nat, fl: Flags, m: nat)
    requires !fl.plus && !fl.space
    ensures var d := Numeral(v, 10);
            var k := m - |d|;
            DecimalText(v, fl, m) == if fl.left then d + Padding(k, ' ')
                                     else if fl.zero then Padding(k, '0') + d
                                     else Padding(k, ' ') + d
  {
    hide Numeral;
    FieldLooks("", Numeral(v, 10), fl.left, fl.zero, m);
  }

  /** As `%x` and `%o` always do. */
  lemma LooksUnsigned(v: nat, b: nat, left: bool, zero: bool, m: nat)
    requires 2 <= b <= 16
    ensures var d := Numeral(v, b);
            var k := m - |d|;
            RadixText(v, b, left, zero, m) == if left then d + Padding(k, ' ')
                                              else if zero then Padding(k, '0') + d
                                              else Padding(k, ' ') + d
  {
    hide Numeral;
    FieldLooks("", Numeral(v, b), left, zero, m);
  }

  lemma FieldLooks(sign: string, d: string, left: bool, zero: bool, m: nat)
    ensures var k := m - |sign| - |d|;
            var zeros := if zero && !left then Short(|sign| + |d|, m) else 0;
            Field(sign + Zeros(zeros) + d, left, m) == if left then sign + d + Padding(k, ' ')
                                                       else if zero then sign + Padding(k, '0') + d
                                                       else Padding(k, ' ') + sign + d
  {
    var k := m - |sign| - |d|;
    if zero && !left {
      assert Zeros(Short(|sign| + |d|, m)) == Padding(k, '0');
    } else {
      assert sign + Zeros(0) + d == sign + d;
    }
  }

  /** The signs of the text: a minus if and only if the number is negative, a plus if
      and only if it is not and one is asked for, and only blanks before either. */
  lemma SignsPrinted(v: int, fl: Flags, m: nat)
    ensures var text := DecimalText(v, fl, m);
            ('-' in text <==> v < 0) && ('+' in text <==> v >= 0 && fl.plus) && OnlyBlanksBeforeSign(text)
  {
    hide Numeral, DecimalText, OnlyBlanksBeforeSign;
    if v < 0 || fl.plus {
      SignPrinted(v, fl, m);
    } else {
      NoSignPrinted(v, fl, m);
    }
  }

  lemma SignPrinted(v: int, fl: Flags, m: nat)
    requires v < 0 || fl.plus
    ensures var text := DecimalText(v, fl, m);
            ('-' in text <==> v < 0) && ('+' in text <==> v >= 0) && OnlyBlanksBeforeSign(text)
  {
    hide Numeral, DecimalText, OnlyBlanksBeforeSign;
    var d := Numeral(if v < 0 then -v else v, 10);
    var sign := if v < 0 then "-" else "+";
    var k := m - |d| - 1;
    DigitsOnly(if v < 0 then -v else v);
    LooksSigned(v, fl, m);
    SignsIn("", sign, d, Padding(k, ' '));
    SignsIn("", sign, Padding(k, '0'), d);
    SignsIn(Padding(k, ' '), sign, d, "");
  }

  predicate OnlyBlanksBeforeSign(text: string) {
    forall i, j :: 0 <= j < i < |text| && text[i] in {'-', '+'} ==> text[j] == ' '
  }

  lemma NoSignPrinted(v: nat, fl: Flags, m: nat)
    requires !fl.plus
    ensures '-' !in DecimalText(v, fl, m) && '+' !in DecimalText(v, fl, m)
    ensures OnlyBlanksBeforeSign(DecimalText(v, fl, m))
  {
    hide Numeral, DecimalText;
    var d := Numeral(v, 10);
    DigitsOnly(v);
    if fl.space {
      LooksSpaced(v, fl, m);
      var k := m - |d| - 1;
      NoSigns([if fl.zero then '0' else ' '], d, Padding(k, ' '));
      NoSigns(['0'], Padding(k, '0'), d);
      NoSigns(Padding(k, ' '), [' '], d);
    } else {
      LooksPlain(v, fl, m);
      var k := m - |d|;
      NoSigns("", d, Padding(k, ' '));
      NoSigns("", Padding(k, '0'), d);
      NoSigns("", Padding(k, ' '), d);
    }
  }

  lemma NoSigns(x: string, y: string, z: string)
    requires '-' !in x && '-' !in y && '-' !in z && '+' !in x && '+' !in y && '+' !in z
    ensures '-' !in x + y + z && '+' !in x + y + z
    ensures x == "" ==> x + y + z == y + z
  {}

  lemma SignsIn(blanks: string, sign: string, y: string, z: string)
    requires sign in {"-", "+"} && '-' !in y && '+' !in y && '-' !in z && '+' !in z
    requires forall k :: 0 <= k < |blanks| ==> blanks[k] == ' '
    ensures var text := blanks + sign + (y + z);
            ('-' in text <==> sign == "-") && ('+' in text <==> sign == "+") && OnlyBlanksBeforeSign(text)
    ensures blanks == "" ==> blanks + sign + (y + z) == sign + y + z
    ensures z == "" ==> blanks + sign + (y + z) == blanks + sign + y
  {
    var text := blanks + sign + (y + z);
    NoSigns("", y, z);
    assert forall i :: |blanks| < i < |text| ==> text[i] == (y + z)[i - |blanks| - 1];
    assert text[|blanks|] == sign[0];
  }

  lemma DigitsOnly(v: nat)
    ensures '-' !in Numeral(v, 10) && '+' !in Numeral(v, 10)
  {
    var ds := NumeralText(v, 10);
  }

  // ---- The conversions ----

  /** Exchanges ends until the middle, in place. */
  method ReverseLine(w0: string) returns (w: string)
    ensures w == Reverse(w0)
  {
    w := w0;
    var i, j := 0, |w| - 1;
    while i < j
      invariant 0 <= i <= j + 1 && i + j == |w0| - 1 && |w| == |w0|
      invariant forall k :: i <= k <= j ==> w[k] == w0[k]
      invariant forall k :: 0 <= k < i ==> w[k] == w0[|w0| - 1 - k]
      invariant forall k :: j < k < |w| ==> w[k] == w0[|w0| - 1 - k]
    {
      var c := w[i];
      w := w[i := w[j]][j := c];
      i, j := i + 1, j - 1;
    }
  }

  /** The digits of `ax`, least significant first. */
  method ReversedDigits(ax0: nat) returns (w: string, n: nat)
    ensures w == Reverse(Numeral(ax0, 10)) && n == |w|
  {
    var ax := ax0;
    ghost var low := "";
    w, n := "", 0;
    assert Numeral(ax, 10) + low == Numeral(ax, 10);
    while true
      invariant w == Reverse(low) && n == |w|
      invariant Numeral(ax0, 10) == Numeral(ax, 10) + low
      decreases ax
    {
      hide Numeral, Reverse, DigitChar;
      var d := DigitChar(ax % 10);
      LastDigit(ax, low);
      ReverseCons(d, low);
      w, n := w + [d], n + 1;
      low := [d] + low;
      ax := ax / 10;
      if ax == 0 {
        break;
      }
    }
  }

  lemma LastDigit(ax: nat, low: string)
    ensures Numeral(ax, 10) + low ==
            (if ax / 10 == 0 then "" else Numeral(ax / 10, 10)) + ([DigitChar(ax % 10)] + low)
    ensures "" + ([DigitChar(ax % 10)] + low) == [DigitChar(ax % 10)] + low
  {
    assert ax / 10 == 0 ==> ax < 10 && ax % 10 == ax;
  }

  lemma {:induction false} ReverseCons(c: char, s: string)
    ensures Reverse([c] + s) == Reverse(s) + [c]
  {
    if s == [] {
      assert [c] + s == [c];
    } else {
      assert ([c] + s)[..|s|] == [c] + s[..|s| - 1];
      ReverseCons(c, s[..|s| - 1]);
    }
  }

  method PadZeros(w0: string, n0: nat, limit: int) returns (w: string, n: nat)
    requires n0 == |w0|
    ensures w == w0 + Zeros(if limit > n0 then limit - n0 else 0) && n == |w|
  {
    w, n := w0, n0;
    while n < limit
      invariant n == |w| && n >= n0
      invariant n <= if limit > n0 then limit else n0
      invariant w == w0 + Zeros(n - n0)
    {
      w, n := w + ['0'], n + 1;
    }
  }

  method PutField(w: string, left: bool, m: nat) returns (buf: string)
    ensures buf == Field(w, left, m)
  {
    var p := |w|;
    buf := "";
    if !left && p < m {
      buf := buf + seq(m - p, _ => ' ');
    }
    buf := buf + w;
    if left && p < m {
      buf := buf + seq(m - p, _ => ' ');
    }
  }

  /** `%d` and `%i` when `signed`, `%u` when not. */
  method PrintDecimal(s: string, signed: bool, fl: Flags, m: nat) returns (buf: string)
    requires Fits(s, signed)
    ensures buf == DecimalText(ValueOf(s, signed), fl, m)
    ensures ('-' in buf <==> ValueOf(s, signed) < 0) && ('+' in buf <==> ValueOf(s, signed) >= 0 && fl.plus)
  {
    hide Numeral, Reverse, Fits, ValueOf, Abs;
    var ax, nflag := Magnitude(s, signed);
    var w, n := ReversedDigits(ax);
    w := SignAndZeros(w, n, nflag, fl, m, Numeral(ax, 10));
    w := ReverseLine(w);
    buf := PutField(w, fl.left, m);
    SignsPrinted(ValueOf(s, signed), fl, m);
  }

  /** Prints a bit string with `%d`, or `%u`, and reads the text back with atoi: the
      number is that of the bits. */
  method PrintAndRead(s: string, signed: bool, fl: Flags, m: nat) returns (v: int)
    requires Fits(s, signed)
    ensures v == ValueOf(s, signed)
  {
    hide Fits, ValueOf, Stdlib.Signed, DecimalText;
    var text := PrintDecimal(s, signed, fl, m);
    DecimalRoundTrip(ValueOf(s, signed), fl, m);
    v := Stdlib.Atoi(text);
  }

  /** What follows the digits in the reversed line. */
  method SignAndZeros(w0: string, n0: nat, nflag: bool, fl: Flags, m: nat, ghost digits: string) returns (w: string)
    requires w0 == Reverse(digits) && n0 == |digits|
    ensures var sign := Sign(nflag, fl);
            var zeros := if fl.zero && !fl.left then Short(|sign| + |digits|, m) else 0;
            Reverse(w) == sign + Zeros(zeros) + digits
  {
    hide Reverse;
    var n := n0;
    w := w0;
    if fl.zero && !fl.left {
      w, n := PadZeros(w, n, m - 1);
    }
    ghost var zeros := n - n0;
    w, n := AddSign(w, n, nflag, fl);
    if fl.zero && !fl.left && n < m {
      w, n := w + "0", n + 1;
      assert Zeros(zeros + 1) == Zeros(zeros) + "0";
      zeros := zeros + 1;
    }
    ReverseJoined(digits, zeros, Sign(nflag, fl), w);
  }

  method AddSign(w0: string, n0: nat, nflag: bool, fl: Flags) returns (w: string, n: nat)
    ensures w == w0 + Sign(nflag, fl) && n == n0 + |Sign(nflag, fl)|
  {
    w, n := w0, n0;
    if nflag {
      w, n := w + "-", n + 1;
    }
    if fl.plus && !nflag {
      w, n := w + "+", n + 1;
    }
    if fl.space && !fl.plus && !nflag {
      if fl.zero {
        w := w + "0";
      } else {
        w := w + " ";
      }
      n := n + 1;
    }
  }

  lemma ReverseJoined(digits: string, zeros: nat, sign: string, w: string)
    requires |sign| <= 1 && w == Reverse(digits) + Zeros(zeros) + sign
    ensures Reverse(w) == sign + Zeros(zeros) + digits
  {
    var text := sign + Zeros(zeros) + digits;
    forall k | 0 <= k < |text|
      ensures Reverse(w)[k] == text[k]
    {
      hide Reverse;
      assert Reverse(w)[k] == w[|w| - 1 - k];
    }
  }
}
