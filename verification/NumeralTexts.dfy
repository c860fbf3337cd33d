/** Numerals as they stand in a text, by character codes: what strtoul and strtol make
    of them, and what the printed ones look like. */
module NumeralTexts {
  import opened Numerals
  import opened Stdlib

  /** The value of the digits `ds`, most significant first. */
  function Horner(ds: seq<nat>, b: nat): nat {
    if ds == [] then 0 else Horner(ds[..|ds| - 1], b) * b + ds[|ds| - 1]
  }

  lemma ThreeDigits(x: nat, y: nat, z: nat, b: nat)
    ensures Horner([x, y, z], b) == (x * b + y) * b + z
  {
    assert [x, y, z][..2] == [x, y] && [x, y][..1] == [x] && [x][..0] == [];
    assert Horner([x], b) == Horner([], b) * b + x == x;
    assert Horner([x, y], b) == x * b + y;
  }

  /** The text writes those digits, with letters of either case. */
  predicate Writes(t: string, ds: seq<nat>, b: nat) {
    |t| == |ds| &&
    forall k :: 0 <= k < |t| ==>
      ds[k] < b &&
      if ds[k] < 10 then t[k] as int == 48 + ds[k] else t[k] as int in {55 + ds[k], 87 + ds[k]}
  }

  lemma {:induction false} WritesValue(t: string, ds: seq<nat>, b: nat)
    requires Writes(t, ds, b) && b <= 36
    ensures Digits(t, b) && Value(t, b) == Horner(ds, b)
  {
    if t == [] {
    } else {
      WritesValue(t[..|t| - 1], ds[..|ds| - 1], b);
    }
  }

  predicate Spaces(t: string) {
    forall k :: 0 <= k < |t| ==> t[k] as int in {9, 10, 11, 12, 13, 32}
  }

  /** Neither a digit nor a letter comes next. */
  predicate Stops(rest: string) {
    rest != [] ==> !(48 <= rest[0] as int <= 57 || 65 <= rest[0] as int <= 90 || 97 <= rest[0] as int <= 122)
  }

  lemma StopIsNoDigit(rest: string, b: nat)
    requires Stops(rest)
    ensures rest != [] ==> !IsDigit(rest[0], b)
  {}

  /** Digits at the end of a prefix, and something that stops them. */
  lemma DigitsAt(before: string, t: string, rest: string, ds: seq<nat>, x: Prefix)
    requires Writes(t, ds, x.b) && x.b <= 36 && Stops(rest) && x.p == |before|
    ensures Number(before + t + rest, x) == Reading(Horner(ds, x.b), |before| + |t|, ds != [] || x.seen)
  {
    var s := before + t + rest;
    var end := |before| + |t|;
    WritesValue(t, ds, x.b);
    hide Value, Horner, Writes;
    assert s[|before|..end] == t;
    assert end < |s| ==> s[end] == rest[0];
    TakesDigits(s, |before|, end, x.b);
  }

  lemma SpacesSkipped(pre: string, t: string)
    requires Spaces(pre) && t != [] && t[0] as int !in {9, 10, 11, 12, 13, 32}
    ensures SkipSpaces(pre + t, 0) == |pre|
  {
    assert (pre + t)[|pre|] == t[0];
    SkipsBlanks(pre + t, 0, |pre|);
  }

  /** In base 0, a zero and octal digits. */
  lemma ReadsOctal(pre: string, t: string, rest: string, ds: seq<nat>)
    requires Spaces(pre) && Writes(t, ds, 8) && Stops(rest) && t + rest != []
    ensures Read(pre + ("0" + t + rest), 0, 0) == Reading(Horner(ds, 8), |pre| + 1 + |t|, true)
  {
    hide Horner, SkipSpaces, Number;
    SpacesSkipped(pre, "0" + t + rest);
    var s := pre + ("0" + t + rest);
    assert s == (pre + "0") + t + rest;
    assert s[|pre| + 1] == (t + rest)[0];
    DigitsAt(pre + "0", t, rest, ds, Prefix(8, |pre| + 1, true));
  }

  /** In base 0 or 16, `0x` or `0X` and hexadecimal digits of either case. */
  lemma ReadsHex(pre: string, x: char, t: string, rest: string, ds: seq<nat>, base: nat)
    requires Spaces(pre) && x in {'x', 'X'} && Writes(t, ds, 16) && Stops(rest) && base in {0, 16}
    ensures Read(pre + (['0', x] + t + rest), 0, base) ==
            Reading(Horner(ds, 16), |pre| + 2 + |t|, ds != [])
  {
    hide Horner, SkipSpaces, Number;
    SpacesSkipped(pre, ['0', x] + t + rest);
    var s := pre + (['0', x] + t + rest);
    assert s == (pre + ['0', x]) + t + rest;
    DigitsAt(pre + ['0', x], t, rest, ds, Prefix(16, |pre| + 2, false));
  }

  /** Digits with no prefix, in their own base, or decimal ones in base 0. */
  lemma ReadsPlain(pre: string, t: string, rest: string, ds: seq<nat>, base: nat)
    requires base == 0 || 2 <= base <= 36
    requires Spaces(pre) && Writes(t, ds, if base == 0 then 10 else base) && Stops(rest) && ds != []
    requires base == 0 ==> ds[0] != 0
    ensures Read(pre + (t + rest), 0, base) ==
            Reading(Horner(ds, if base == 0 then 10 else base), |pre| + |t|, true)
  {
    hide Horner, SkipSpaces, Number;
    SpacesSkipped(pre, t + rest);
    var s := pre + (t + rest);
    assert s == pre + t + rest;
    assert s[|pre|] == t[0];
    assert |t| > 1 ==> s[|pre| + 1] == t[1];
    DigitsAt(pre, t, rest, ds, Prefix(if base == 0 then 10 else base, |pre|, false));
  }

  /** strtol of spaces, a sign and decimal digits. */
  lemma ReadsSigned(pre: string, sign: string, t: string, rest: string, ds: seq<nat>)
    requires Spaces(pre) && sign in {"", "-", "+"} && Writes(t, ds, 10) && Stops(rest) && ds != []
    ensures var v: int := Horner(ds, 10);
            Signed(pre + (sign + t + rest), 0, 10) == if sign == "-" then -v else v
  {
    hide Horner, SkipSpaces, Number;
    var s := pre + (sign + t + rest);
    SpacesSkipped(pre, sign + t + rest);
    assert s == (pre + sign) + t + rest;
    var q := |pre| + |sign|;
    assert s[q] == t[0];
    assert sign != "" ==> s[|pre|] == sign[0];
    assert SkipSpaces(s, q) == q by {
      SkipsBlanks(s, q, q);
    }
    DigitsAt(pre + sign, t, rest, ds, Prefix(10, q, false));
  }

  // ---- Printed numerals ----

  /** A numeral is written in digits and lower-case letters, has no needless zero in
      front, and the value it was made from. */
  lemma {:induction false} NumeralText(v: nat, b: nat) returns (ds: seq<nat>)
    requires 2 <= b <= 16
    ensures Writes(Numeral(v, b), ds, b) && Horner(ds, b) == v
    ensures ds != [] && (v > 0 ==> ds[0] != 0) && (|ds| > 1 ==> ds[0] != 0)
    ensures forall k :: 0 <= k < |Numeral(v, b)| ==> Numeral(v, b)[k] as int != 55 + ds[k]
  {
    if v < b {
      ds := [v];
      CharCode(v);
      assert Horner([], b) == 0 && ds[..0] == [];
    } else {
      NumeralStep(v, b);
      DivMod(v, b);
      Smaller(v, b);
      DivBase(v / b, v % b, b);
      hide Numeral, Horner, DigitChar, Writes;
      var high := NumeralText(v / b, b);
      ds := high + [v % b];
      DigitAppended(Numeral(v / b, b), high, v % b, b);
    }
  }

  lemma DigitAppended(t: string, ds: seq<nat>, d: nat, b: nat)
    requires Writes(t, ds, b) && d < b <= 16 && forall k :: 0 <= k < |t| ==> t[k] as int != 55 + ds[k]
    ensures var t', ds' := t + [DigitChar(d)], ds + [d];
            Writes(t', ds', b) && Horner(ds', b) == Horner(ds, b) * b + d &&
            forall k :: 0 <= k < |t'| ==> t'[k] as int != 55 + ds'[k]
  {
    CharCode(d);
    hide DigitChar;
    assert (ds + [d])[..|ds|] == ds;
  }

  lemma CharCode(d: nat)
    requires d < 16
    ensures DigitChar(d) as int == if d < 10 then 48 + d else 87 + d
  {}
}
