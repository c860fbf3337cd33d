/** Repeated escapes, and runs that never end. `regmatch` goes back from a `*` to the
    escaped character without its backslash, and then reads it as if it were not
    escaped. */
module EscapeFacts {
  import opened Wrappers
  import opened Pattern
  import opened Matching
  import opened PatternFacts
  import opened RegTurn
  import opened RegRefine

  function StarredEscape(c: Character): Text {
    ['\\', c, '*']
  }

  /** What a starred escape is for: the longest run of the character. */
  function RunOf(c: Character, s: Text, siIn: nat): Verdict
    requires siIn >= 1
  {
    (0, RunEnd(Single(c), s, siIn - 1) + 1, NO_CAPTURES)
  }

  /** On every subject it ends and takes the longest run. */
  ghost predicate TakesRuns(c: Character) {
    forall s: Text, siIn: nat :: siIn >= 1 ==> Reports(StarredEscape(c), s, siIn, RunOf(c, s, siIn))
  }

  /** A starred escape takes runs of the escaped character for every character that
      stands for itself unescaped, and for no other. */
  lemma EscapeTakesRuns(c: Character)
    ensures TakesRuns(c) <==> c !in SPECIAL + {'.'}
  {
    if c !in SPECIAL + {'.'} {
      forall s: Text, siIn: nat | siIn >= 1
        ensures Reports(StarredEscape(c), s, siIn, RunOf(c, s, siIn))
      {
        PlainEscape(c, s, siIn);
      }
    } else {
      var s := SpecialEscape(c);
      assert !Reports(StarredEscape(c), s, 1, RunOf(c, s, 1));
    }
  }

  lemma EscapeItem(c: Character)
    requires c !in SPECIAL
    ensures var f, again := StarredEscape(c), if c == '.' then ANY else Single(c);
            !AltEnd(f, 0) && After(f, 0) >= 3 && ItemOk(f, 0, 1, true) &&
            ItemAt(f, 0, NOTHING_SEEN) == Atom(Single(c), Star(again))
  {
    assert SuffixAt(StarredEscape(c), 0) == 2;
  }

  /** What is reported is where the repeated atom ends. */
  lemma EscapeReports(c: Character, s: Text, siIn: nat)
    requires siIn >= 1 && c !in SPECIAL
    ensures var again := if c == '.' then ANY else Single(c);
            Reports(StarredEscape(c), s, siIn, (0, StarEnd(Single(c), again, s, siIn - 1) + 1, NO_CAPTURES))
  {
    var f, again := StarredEscape(c), if c == '.' then ANY else Single(c);
    EscapeItem(c);
    hide WellFormed, AltEnd, After, ItemAt, ItemOk, Reports, Single, StarEnd;
    OneItem(f, s, siIn - 1, Atom(Single(c), Star(again)));
    MatchStar(Single(c), again, s, siIn - 1, siIn - 1, NO_CAPTURES);
    ReportsMeaning(f, s, siIn);
  }

  lemma PlainEscape(c: Character, s: Text, siIn: nat)
    requires siIn >= 1 && c !in SPECIAL + {'.'}
    ensures Reports(StarredEscape(c), s, siIn, RunOf(c, s, siIn))
  {
    hide Reports, Single;
    EscapeReports(c, s, siIn);
    assert StarEnd(Single(c), Single(c), s, siIn - 1) == RunEnd(Single(c), s, siIn - 1);
  }

  /** For each of the others there is a subject on which it does something else. */
  lemma SpecialEscape(c: Character) returns (s: Text)
    requires c in SPECIAL + {'.'}
    ensures !Reports(StarredEscape(c), s, 1, RunOf(c, s, 1))
  {
    s := if c == '.' then ['.', 'a'] else if c == ')' || c == '|' then [c, c] else [c];
    hide Reports;
    if c == '.' {
      EscapedStop();
    } else if c == '^' || c == '[' || c == '\\' {
      EscapeLost(c);
    } else if c == '|' {
      EscapedBar();
    } else if c == '(' || c == ')' {
      EscapedGroup(c);
    } else {
      EscapeNeverEnds(c);
    }
  }

  /** After the first full stop it takes anything. */
  lemma EscapedStop()
    ensures var s: Text := ['.', 'a'];
            Reports(StarredEscape('.'), s, 1, (0, 3, NO_CAPTURES)) &&
            !Reports(StarredEscape('.'), s, 1, RunOf('.', s, 1))
  {
    var f, s: Text := StarredEscape('.'), ['.', 'a'];
    SingleHit('.', s, 0);
    SingleHit('.', s, 1);
    hide Reports, Single;
    assert Hit(ANY, s, 1) && !Hit(ANY, s, 2);
    assert RunEnd(ANY, s, 2) == 2;
    assert StarEnd(Single('.'), ANY, s, 0) == 2;
    assert RunEnd(Single('.'), s, 1) == 1;
    EscapeReports('.', s, 1);
    if Reports(f, s, 1, RunOf('.', s, 1)) {
      ReportsOnce(f, s, 1, (0, 3, NO_CAPTURES), RunOf('.', s, 1));
    }
  }

  // ---- The other characters, turn by turn ----

  /** After the escape has matched once and its `*` has jumped back. */
  function JumpedBack(): Cfg {
    Cfg(1, 2, 1, 0, NUL, 1, 0, Blank(1, 2), Blank(1, 1), Blank(1, 1), Blank(0, 0), NO_CAPTURES)
  }

  lemma FirstMatched(c: Character, s: Text)
    requires c != NUL && s != [] && s[0] == c
    ensures Turns(StarredEscape(c), s, 1, Start(1), 2) == Going(JumpedBack())
  {
    var f := StarredEscape(c);
    SingleHit(c, s, 0);
    hide Single;
    var x := JumpedBack().(fi := 2);
    assert Blank(1, 1)[1 := 2] == Blank(1, 2) && Blank(1, 1)[1 := 1] == Blank(1, 1);
    assert Turn(f, s, 1, Start(1)) == Going(x);
    assert Turn(f, s, 1, x) == Going(JumpedBack());
    TwoTurns(f, s, 1, Start(1), x);
  }

  /** Where the two turns after the jump lead. */
  lemma FourTurns(c: Character, s: Text, y: Cfg)
    requires c != NUL && s != [] && s[0] == c
    requires Turn(StarredEscape(c), s, 1, JumpedBack()) == Going(y)
    ensures Turns(StarredEscape(c), s, 1, Start(1), 4) == Turn(StarredEscape(c), s, 1, y)
  {
    hide Turn;
    FirstMatched(c, s);
    TwoTurns(StarredEscape(c), s, 1, JumpedBack(), y);
    TurnsAdd(StarredEscape(c), s, 1, Start(1), 2, 2);
  }

  /** `\**`, `\?*`, `\{*`, `\}*` and `\$*` never end on the character itself. */
  lemma EscapeNeverEnds(c: Character)
    requires c in {'*', '?', '{', '}', '$'}
    ensures NeverEnds(StarredEscape(c), [c], 1) && !Ends(StarredEscape(c), [c], 1)
    ensures forall v :: !Reports(StarredEscape(c), [c], 1, v)
  {
    var f, s: Text, x := StarredEscape(c), [c], JumpedBack();
    FirstMatched(c, s);
    if c == '*' {
      assert Turn(f, s, 1, x) == Going(x);
      SingleTurn(f, s, 1, x);
      CycleNeverEnds(f, s, 1, 2, x, 1);
    } else {
      var y := x.(fi := 2);
      assert Turn(f, s, 1, x) == Going(y);
      assert Turn(f, s, 1, y) == Going(x);
      TwoTurns(f, s, 1, x, y);
      CycleNeverEnds(f, s, 1, 2, x, 2);
    }
  }

  /** `\^*`, `\[*` and `\\*` lose the one character they have matched. */
  lemma EscapeLost(c: Character)
    requires c in {'^', '[', '\\'}
    ensures Reports(StarredEscape(c), [c], 1, (0, 1, NO_CAPTURES))
    ensures !Reports(StarredEscape(c), [c], 1, RunOf(c, [c], 1))
  {
    var f, s: Text := StarredEscape(c), [c];
    SingleHit(c, s, 0);
    assert RunEnd(Single(c), s, 0) > 0;
    hide Turn, Turns, JumpedBack;
    if c == '^' {
      AnchorLoses();
    } else {
      AtomLoses(c);
    }
    if Reports(f, s, 1, RunOf(c, s, 1)) {
      ReportsOnce(f, s, 1, (0, 1, NO_CAPTURES), RunOf(c, s, 1));
    }
  }

  lemma AnchorLoses()
    ensures Reports(StarredEscape('^'), ['^'], 1, (0, 1, NO_CAPTURES))
  {
    var f, s: Text, x := StarredEscape('^'), ['^'], JumpedBack();
    var y := x.(fi := 2, m := 0);
    var z := x.(fi := 3, si := 1);
    assert Turn(f, s, 1, x) == Going(y);
    assert Turn(f, s, 1, y) == Going(z);
    assert Turn(f, s, 1, z) == Done(1, 0, 1, NO_CAPTURES);
    hide Turn, JumpedBack, Turns;
    FourTurns('^', s, y);
    SingleTurn(f, s, 1, z);
    TurnsAdd(f, s, 1, Start(1), 4, 1);
    assert EndsIn(f, s, 1, 5);
  }

  /** The class `[*`, or the atom `\*`, has nothing left to match. */
  lemma AtomLoses(c: Character)
    requires c == '[' || c == '\\'
    ensures Reports(StarredEscape(c), [c], 1, (0, 1, NO_CAPTURES))
  {
    var f, s: Text, x := StarredEscape(c), [c], JumpedBack();
    assert AtomEnd(f, 1) >= 3 by {
      assert Scan(f, 3, false, '*') == Scanned([], 3);
    }
    var y := x.(fi := AtomEnd(f, 1), m := 0, c := if c == '[' then ']' else NUL, mstack := x.mstack[1 := 1],
                sstack := x.sstack[1 := 2], fstack := x.fstack[1 := if c == '[' then 2 else 3]);
    assert Turn(f, s, 1, x) == Going(y);
    assert Turn(f, s, 1, y) == Done(0, 0, 2, NO_CAPTURES);
    hide Turn, JumpedBack, Turns;
    FourTurns(c, s, y);
    assert EndsIn(f, s, 1, 4);
  }

  /** `\|*` goes back to a bar, which ends the alternative: one bar of two is taken. */
  lemma EscapedBar()
    ensures Reports(StarredEscape('|'), ['|', '|'], 1, (1, 2, NO_CAPTURES))
    ensures !Reports(StarredEscape('|'), ['|', '|'], 1, RunOf('|', ['|', '|'], 1))
  {
    var f, s: Text, x := StarredEscape('|'), ['|', '|'], JumpedBack();
    FirstMatched('|', s);
    assert Turn(f, s, 1, x) == Done(1, 1, 2, NO_CAPTURES);
    SingleTurn(f, s, 1, x);
    hide Turn, JumpedBack, Turns, RunEnd;
    TurnsAdd(f, s, 1, Start(1), 2, 1);
    assert EndsIn(f, s, 1, 3);
    if Reports(f, s, 1, RunOf('|', s, 1)) {
      ReportsOnce(f, s, 1, (1, 2, NO_CAPTURES), RunOf('|', s, 1));
    }
  }

  /** `\(*` and `\)*` go back to a parenthesis, and use stack entries that are not
      set, or not there: the simulation stops. */
  lemma EscapedGroup(c: Character)
    requires c == '(' || c == ')'
    ensures var s: Text := if c == '(' then [c] else [c, c];
            !Ends(StarredEscape(c), s, 1) && forall v :: !Reports(StarredEscape(c), s, 1, v)
  {
    if c == '(' {
      OpenFaults();
      FaultNeverEnds(StarredEscape(c), [c], 1, 4);
    } else {
      CloseFaults();
      FaultNeverEnds(StarredEscape(c), [c, c], 1, 7);
    }
  }

  lemma OpenFaults()
    ensures Turns(StarredEscape('('), ['('], 1, Start(1), 4).Fault?
  {
    var f, s: Text, x := StarredEscape('('), ['('], JumpedBack();
    var y := x.(fi := 2, sp := 2, mi := 1, fstack := x.fstack[1 := 1], mstack := x.mstack[1 := 1],
                sstack := x.sstack[1 := 2], mistack := x.mistack[1 := 1]);
    assert Turn(f, s, 1, x) == Going(y);
    assert y.fstack[2] == UNSET;
    assert Turn(f, s, 1, y).Fault?;
    hide Turn, JumpedBack, Turns;
    FourTurns('(', s, y);
  }

  lemma CloseFaults()
    ensures Turns(StarredEscape(')'), [')', ')'], 1, Start(1), 7).Fault?
  {
    var f, s: Text, x := StarredEscape(')'), [')', ')'], JumpedBack();
    var y := x.(fi := 2, sp := 0);
    var z := y.(fi := 0);
    assert Turn(f, s, 1, x) == Going(y);
    assert Turn(f, s, 1, y) == Going(z);
    SingleHit(')', s, 1);
    var u := z.(fi := 2, si := 3, fstack := z.fstack[0 := 2], mstack := z.mstack[0 := 1], sstack := z.sstack[0 := 2]);
    var v := u.(fi := 1);
    assert Turn(f, s, 1, z) == Going(u);
    assert Turn(f, s, 1, u) == Going(v);
    assert Turn(f, s, 1, v).Fault?;
    hide Turn, JumpedBack, Turns;
    FourTurns(')', s, y);
    TwoTurns(f, s, 1, z, u);
    SingleTurn(f, s, 1, v);
    TurnsAdd(f, s, 1, z, 2, 1);
    TurnsAdd(f, s, 1, Start(1), 4, 3);
  }

  // ---- Repetition of nothing ----

  /** A pattern that begins with a star, or with `^*`, never ends, on any subject,
      whatever follows: the star jumps back to the start. */
  lemma NothingRepeated(f: Text, s: Text, siIn: int)
    requires (|f| > 0 && f[0] == '*') || (|f| > 1 && f[0] == '^' && f[1] == '*')
    ensures NeverEnds(f, s, siIn) && !Ends(f, s, siIn)
  {
    var x := Start(siIn);
    assert Turns(f, s, siIn, x, 0) == Going(x);
    if f[0] == '*' {
      assert Turn(f, s, siIn, x) == Going(x);
      SingleTurn(f, s, siIn, x);
      CycleNeverEnds(f, s, siIn, 0, x, 1);
    } else {
      var y := x.(fi := 1);
      assert Turn(f, s, siIn, x) == Going(y);
      assert Turn(f, s, siIn, y) == Going(x);
      TwoTurns(f, s, siIn, x, y);
      CycleNeverEnds(f, s, siIn, 0, x, 2);
    }
  }

  /** Before the first character of the pattern, with matching going on. */
  predicate AtFirst(x: Cfg) {
    x.fi == 0 && x.m == 1 && x.sp == 1 && x.si >= 1
  }

  /** `a**` and `a?*` never end, on any subject and for any character that stands for
      itself: hit or miss, the last star jumps back. */
  lemma RepeatedAgain(c: Character, q: Character, s: Text, siIn: nat)
    requires c !in SPECIAL + {'.', NUL} && (q == '*' || q == '?') && siIn >= 1
    ensures NeverEnds([c, q, '*'], s, siIn) && !Ends([c, q, '*'], s, siIn)
  {
    forall n: nat
      ensures Turns([c, q, '*'], s, siIn, Start(siIn), n).Going?
    {
      GoesRound(c, q, s, siIn, Start(siIn), n);
    }
  }

  lemma {:induction false} GoesRound(c: Character, q: Character, s: Text, siIn: nat, x: Cfg, n: nat)
    requires c !in SPECIAL + {'.', NUL} && (q == '*' || q == '?') && AtFirst(x)
    ensures Turns([c, q, '*'], s, siIn, x, n).Going?
    decreases n
  {
    var f: Text := [c, q, '*'];
    var k, y := OneRound(c, q, s, siIn, x);
    hide Turns;
    if n < k {
      TurnsAdd(f, s, siIn, x, n, k - n);
    } else {
      GoesRound(c, q, s, siIn, y, n - k);
      TurnsAdd(f, s, siIn, x, k, n - k);
    }
  }

  lemma OneRound(c: Character, q: Character, s: Text, siIn: nat, x: Cfg) returns (k: nat, y: Cfg)
    requires c !in SPECIAL + {'.', NUL} && (q == '*' || q == '?') && AtFirst(x)
    ensures k >= 1 && AtFirst(y) && Turns([c, q, '*'], s, siIn, x, k) == Going(y)
  {
    var f: Text := [c, q, '*'];
    var hit := Hit(Single(c), s, x.si - 1);
    var z := x.(fi := 1, si := if hit then x.si + 1 else x.si, m := if hit then 1 else 0,
                fstack := x.fstack[1 := 1], mstack := x.mstack[1 := 1], sstack := x.sstack[1 := x.si]);
    hide Hit;
    assert Turn(f, s, siIn, x) == Going(z);
    if hit && q == '*' {
      k, y := 2, z.(fi := 0);
      assert Turn(f, s, siIn, z) == Going(y);
      TwoTurns(f, s, siIn, x, z);
    } else {
      var w := z.(fi := 2, m := 1);
      assert Turn(f, s, siIn, z) == Going(w);
      k, y := 3, w.(fi := 0);
      assert Turn(f, s, siIn, w) == Going(y);
      hide Turn, Turns;
      TwoTurns(f, s, siIn, x, z);
      SingleTurn(f, s, siIn, w);
      TurnsAdd(f, s, siIn, x, 2, 1);
    }
  }

  /** `a|*` ends only if its first alternative matches: the star of the second jumps back
      into the first. */
  lemma BarRepeated(c: Character, s: Text, siIn: nat)
    requires c !in SPECIAL + {'.', NUL} && siIn >= 1
    ensures Ends([c, '|', '*'], s, siIn) <==> Hit(Single(c), s, siIn - 1)
  {
    var f: Text, x := [c, '|', '*'], Start(siIn);
    if Hit(Single(c), s, siIn - 1) {
      var y := x.(fi := 1, si := siIn + 1, fstack := x.fstack[1 := 1], mstack := x.mstack[1 := 1],
                  sstack := x.sstack[1 := siIn]);
      assert Turn(f, s, siIn, x) == Going(y);
      assert Turn(f, s, siIn, y).Done?;
      TwoTurns(f, s, siIn, x, y);
      assert EndsIn(f, s, siIn, 2);
    } else {
      forall n: nat
        ensures !EndsIn(f, s, siIn, n)
      {
        RoundTheBar(c, s, siIn, x, n);
      }
    }
  }

  lemma {:induction false} RoundTheBar(c: Character, s: Text, siIn: nat, x: Cfg, n: nat)
    requires c !in SPECIAL + {'.', NUL} && AtFirst(x)
    requires x.si == siIn && x.sstack[0] == siIn && x.mstack[0] == 1 && !Hit(Single(c), s, siIn - 1)
    ensures Turns([c, '|', '*'], s, siIn, x, n).Going?
    decreases n
  {
    var f: Text := [c, '|', '*'];
    var z := x.(fi := 1, m := 0, fstack := x.fstack[1 := 1], mstack := x.mstack[1 := 1],
                sstack := x.sstack[1 := siIn]);
    var w := z.(fi := 2, m := 1, aii := x.aii + 1, mi := 0);
    var y := w.(fi := 0);
    hide Hit;
    assert Turn(f, s, siIn, x) == Going(z);
    assert Turn(f, s, siIn, z) == Going(w);
    assert Turn(f, s, siIn, w) == Going(y);
    hide Turn, Turns;
    TwoTurns(f, s, siIn, x, z);
    SingleTurn(f, s, siIn, w);
    TurnsAdd(f, s, siIn, x, 2, 1);
    if n < 3 {
      TurnsAdd(f, s, siIn, x, n, 3 - n);
    } else {
      RoundTheBar(c, s, siIn, y, n - 3);
      TurnsAdd(f, s, siIn, x, 3, n - 3);
    }
  }
}
