/** strtol and atoi of stdlib_h.vhdl against section 7.20.1.4 of ISO C99. */
module Standard {
  import opened Numerals
  import opened Stdlib

  /** The value section 7.20.1.4 of ISO C99 asks for: blanks, a sign, and then the number
      at once; 0 if there is none. */
  function Standard(s: string, p: nat, base: nat): int
    requires p <= |s|
  {
    var q := AfterSign(s, p);
    var v: int := Number(s, PrefixAt(s, q, base)).value;
    if Minus(s, p) then -v else v
  }

  /** strtol gives that value if and only if the text is not all blanks and no number
      follows blanks that follow the sign. */
  lemma StandardValue(s: string, p: nat, base: nat)
    requires p <= |s|
    ensures var q := AfterSign(s, p);
            Signed(s, p, base) == Standard(s, p, base) <==>
            SkipSpaces(s, p) < |s| && (q < |s| && IsSpace(s[q]) ==> Read(s, q, base).value == 0)
  {
    var q := AfterSign(s, p);
    SpacesEnd(s, p);
    if SkipSpaces(s, p) >= |s| {
      NoNumber(s, q, base);
    } else if q < |s| && IsSpace(s[q]) {
      NoNumber(s, q, base);
    } else {
      assert SkipSpaces(s, q) == q;
    }
  }

  lemma NoNumber(s: string, p: nat, base: nat)
    requires p == |s| || (p < |s| && IsSpace(s[p]))
    ensures Number(s, PrefixAt(s, p, base)).value == 0
  {
    var x := PrefixAt(s, p, base);
    assert x.p == p && DigitsEnd(s, p, x.b) == p;
    NoDigits(s, p, x.b);
  }

  /** A text of blanks, or an empty one: the leftmost integer, where 0 is asked for. */
  lemma BlankText(s: string)
    requires forall k :: 0 <= k < |s| ==> IsSpace(s[k])
    ensures Signed(s, 0, 10) == -0x8000_0000 && Standard(s, 0, 10) == 0
  {
    AllSkipped(s, 0);
    NoNumber(s, AfterSign(s, 0), 10);
  }

  lemma {:induction false} AllSkipped(s: string, p: nat)
    requires p <= |s| && forall k :: p <= k < |s| ==> IsSpace(s[k])
    ensures SkipSpaces(s, p) == |s|
    decreases |s| - p
  {
    if p == |s| {
    } else {
      AllSkipped(s, p + 1);
    }
  }

  /** A blank after the sign is skipped too: atoi of a minus sign, a blank and a 5 is -5,
      where 0 is asked for. */
  lemma SignThenBlank(s: string)
    requires s == ['-', ' ', '5']
    ensures Signed(s, 0, 10) == -5 && Standard(s, 0, 10) == 0
  {
    assert SkipSpaces(s, 0) == 0 && AfterSign(s, 0) == 1;
    assert SkipSpaces(s, 2) == 2 && SkipSpaces(s, 1) == 2;
    assert DigitsEnd(s, 3, 10) == 3 && DigitsEnd(s, 2, 10) == 3;
    assert s[2..3] == ['5'];
    ValueOne('5', 10);
    NoNumber(s, 1, 10);
  }
}
