/** Groups: the pattern with which stdio_h.vhdl takes a conversion apart, for every
    format, and the groups that do not mean what they say. */
module GroupFacts {
  import opened Wrappers
  import opened Pattern
  import opened Matching
  import opened PatternFacts
  import opened RegTurn
  import opened RegRefine

  // ---- The fields of a conversion ----

  const FLAGS := Class(false, [Range(' ', ' '), Range('0', '0'), Range('#', '#'), Range('+', '+'), Range('-', '-')])

  const DIGITS := Class(false, [Range('0', '0'), Range('0', '9')])

  /** A group of one starred class. */
  function RunGroupItem(number: nat, cls: Class): Item {
    Group(number, [Alternative([Atom(cls, Star(cls))])], false)
  }

  lemma MatchRunGroup(number: nat, cls: Class, s: Text, i: nat, start: nat, caps: Captures)
    ensures var e := RunEnd(cls, s, i);
            Match([RunGroupItem(number, cls)], s, i, start, caps) ==
            Outcome(Some(e), Capture(caps, number, Clip(Span(s, i, e))))
  {
    var items := [Atom(cls, Star(cls))];
    MatchGroup(number, [Alternative(items)], false, s, i, start, caps);
    MatchStar(cls, cls, s, i, start, caps);
    ChooseFrom(items, [], number, s, i, start, caps);
    assert [Alternative(items)] + [] == [Alternative(items)];
  }

  // ---- Its text ----

  lemma IsOptionalEscape(f: Text, p: nat, seen: Seen)
    requires p + 3 < |f| && f[p] == '\\' && f[p + 2] == '?' && !Brace(f[p + 3]) && f[p + 3] != '?'
    ensures IsItem(f, p, seen, Atom(Single(f[p + 1]), Optional), p + 3, seen)
  {
    assert SuffixAt(f, p) == p + 2 && SkipIdle(f, p + 3) == p + 3;
  }

  /** A group of a starred class, from its parenthesis at `p` to that after `e`. */
  lemma IsRunGroup(f: Text, p: nat, e: nat, cls: Class, seen: Seen)
    requires p + 1 < e < |f| - 1 && f[p] == '(' && f[p + 1] == '[' && f[e] == '*' && f[e + 1] == ')'
    requires AtomEnd(f, p + 1) == e && ClassAt(f, p + 1, seen.read) == cls == ClassAt(f, p + 1, true)
    requires e + 2 < |f| && !Brace(f[e + 2]) && !AtSuffix(f, e + 2)
    ensures IsItem(f, p, seen, RunGroupItem(seen.groups + 1, cls), e + 2, Seen(true, seen.groups + 1))
  {
    var seen' := seen.(groups := seen.groups + 1);
    RunGroupBody(f, p + 1, e, cls, seen');
    assert SkipBraces(f, e + 2) == e + 2;
  }

  lemma RunGroupBody(f: Text, p: nat, e: nat, cls: Class, seen: Seen)
    requires p < e < |f| - 1 && f[p] == '[' && f[e] == '*' && f[e + 1] == ')'
    requires AtomEnd(f, p) == e && ClassAt(f, p, seen.read) == cls == ClassAt(f, p, true)
    ensures GroupEnd(f, p) == e + 2 && GroupOk(f, p, 2, true)
    ensures GroupAlts(f, p, seen) == [Alternative([Atom(cls, Star(cls))])]
    ensures SeenGroup(f, p, seen) == Seen(true, seen.groups)
  {
    var seen' := Seen(true, seen.groups);
    assert SuffixAt(f, p) == e && SkipIdle(f, e + 1) == e + 1 && After(f, p) == e + 1;
    assert EndFrom(f, e + 1) == e + 1 && Items(f, e + 1, seen') == [] && AltOk(f, e + 1, 2, true);
    assert SeenFrom(f, e + 1, seen') == seen';
    hide AtomEnd, ClassAt, ScanClass;
    assert ItemAt(f, p, seen) == Atom(cls, Star(cls));
    assert SeenBy(f, p, seen) == seen' && EndFrom(f, p) == e + 1;
    assert Items(f, p, seen) == [Atom(cls, Star(cls))] + Items(f, e + 1, seen');
    assert Items(f, p, seen) == [Atom(cls, Star(cls))];
    assert AltOk(f, p, 2, true) && SeenFrom(f, p, seen) == seen';
  }

  /** The pattern `%([ 0#+-]*)([0-9]*)\.?([0-9]*).` of sbufprintf. */
  predicate IsFields(f: Text) {
    |f| == 31 && f[0] == '%' && IsRunText(f, 1, 9) && f[2] == '[' &&
    f[3] == ' ' && f[4] == '0' && f[5] == '#' && f[6] == '+' && f[7] == '-' && f[8] == ']' &&
    IsDigitGroup(f, 11) && f[19] == '\\' && f[20] == '.' && f[21] == '?' && IsDigitGroup(f, 22) && f[30] == '.'
  }

  predicate IsRunText(f: Text, p: nat, e: nat) {
    e + 1 < |f| && p < |f| && f[p] == '(' && f[e] == '*' && f[e + 1] == ')'
  }

  predicate IsDigitGroup(f: Text, p: nat) {
    IsRunText(f, p, p + 6) && f[p + 1] == '[' && f[p + 2] == '0' && f[p + 3] == '-' && f[p + 4] == '9' &&
    f[p + 5] == ']'
  }

  lemma FlagsText(f: Text, read: bool)
    requires IsFields(f)
    ensures AtomEnd(f, 2) == 9 && ClassAt(f, 2, read) == FLAGS
  {
    var minus, plus := [Range('-', '-')], [Range('+', '+'), Range('-', '-')];
    assert Scan(f, 8, false, '-') == Scanned([], 8);
    assert Scan(f, 7, false, '+').ranges == minus && Scan(f, 7, false, '+').end == 8;
    assert Scan(f, 6, false, '#').ranges == plus && Scan(f, 6, false, '#').end == 8;
    FlagsStart(f, Previous(read));
    SameEnd(f, 2, NUL, Previous(read));
  }

  lemma FlagsStart(f: Text, previous: Character)
    requires IsFields(f) && Scan(f, 6, false, '#') == Scanned([Range('+', '+'), Range('-', '-')], 8)
    ensures Scan(f, 3, true, previous) == Scanned(FLAGS.ranges, 8) && !Negated(f, 2)
  {
    var r5 := Scan(f, 5, false, '0');
    assert r5 == Scan(f, 6, false, '#').Prepend(Range('#', '#'));
    var r4 := Scan(f, 4, false, ' ');
    assert r4 == r5.Prepend(Range('0', '0'));
    assert Scan(f, 3, true, previous) == r4.Prepend(Range(' ', ' '));
    assert [Range('#', '#')] + [Range('+', '+'), Range('-', '-')] == FLAGS.ranges[2..];
    assert [Range('0', '0')] + FLAGS.ranges[2..] == FLAGS.ranges[1..];
    assert [Range(' ', ' ')] + FLAGS.ranges[1..] == FLAGS.ranges;
  }

  lemma DigitsText(f: Text, p: nat, read: bool)
    requires IsDigitGroup(f, p)
    ensures AtomEnd(f, p + 1) == p + 6 && ClassAt(f, p + 1, read) == DIGITS
  {
    assert Scan(f, p + 5, false, '-') == Scanned([], p + 5);
    assert Scan(f, p + 3, false, '0') == Scanned([Range('0', '9')], p + 5);
    assert Scan(f, p + 2, true, Previous(read)) == Scanned(DIGITS.ranges, p + 5);
    SameEnd(f, p + 1, NUL, Previous(read));
  }

  // What the text means, from its end.

  const ITEMS_5: seq<Item> := [Atom(ANY, One)]
  const ITEMS_4 := [RunGroupItem(3, DIGITS)] + ITEMS_5
  const ITEMS_3 := [Atom(Single('.'), Optional)] + ITEMS_4
  const ITEMS_2 := [RunGroupItem(2, DIGITS)] + ITEMS_3
  const ITEMS_1 := [RunGroupItem(1, FLAGS)] + ITEMS_2
  const ITEMS_0 := [Atom(Single('%'), One)] + ITEMS_1

  lemma FieldsParsed(f: Text)
    requires IsFields(f)
    ensures Parses(f, 0, NOTHING_SEEN, ITEMS_0)
  {
    hide Parses, IsItem, ClassAt, AtomEnd, DIGITS, FLAGS, RunGroupItem, Single;
    var seen2, seen3 := Seen(true, 2), Seen(true, 3);
    ParsesEnd(f, seen3);
    IsChar(f, 30, seen3);
    ParsesMore(f, 30, seen3, Atom(ANY, One), 31, seen3, []);
    assert [Atom(ANY, One)] + [] == ITEMS_5;
    DigitsText(f, 22, true);
    IsRunGroup(f, 22, 28, DIGITS, seen2);
    ParsesMore(f, 22, seen2, RunGroupItem(3, DIGITS), 30, seen3, ITEMS_5);
    IsOptionalEscape(f, 19, seen2);
    ParsesMore(f, 19, seen2, Atom(Single('.'), Optional), 22, seen2, ITEMS_4);
    FieldsStart(f);
  }

  lemma FieldsStart(f: Text)
    requires IsFields(f) && Parses(f, 19, Seen(true, 2), ITEMS_3)
    ensures Parses(f, 0, NOTHING_SEEN, ITEMS_0)
  {
    hide Parses, IsItem, ClassAt, AtomEnd, DIGITS, FLAGS, RunGroupItem, Single, ITEMS_3;
    var seen1, seen2 := Seen(true, 1), Seen(true, 2);
    DigitsText(f, 11, true);
    IsRunGroup(f, 11, 17, DIGITS, seen1);
    ParsesMore(f, 11, seen1, RunGroupItem(2, DIGITS), 19, seen2, ITEMS_3);
    FlagsText(f, false);
    FlagsText(f, true);
    IsRunGroup(f, 1, 9, FLAGS, NOTHING_SEEN);
    ParsesMore(f, 1, NOTHING_SEEN, RunGroupItem(1, FLAGS), 11, seen1, ITEMS_2);
    IsChar(f, 0, NOTHING_SEEN);
    ParsesMore(f, 0, NOTHING_SEEN, Atom(Single('%'), One), 1, NOTHING_SEEN, ITEMS_1);
  }

  // ---- What it matches ----

  /** The fields of a conversion: where its flags, its width and its precision end. */
  datatype Fields = Fields(flags: nat, width: nat, point: nat, precision: nat)

  function FieldsAt(s: Text, start: nat): Fields {
    var a := RunEnd(FLAGS, s, start + 1);
    var b := RunEnd(DIGITS, s, a);
    var c := if Hit(Single('.'), s, b) then b + 1 else b;
    Fields(a, b, c, RunEnd(DIGITS, s, c))
  }

  function FieldTexts(s: Text, start: nat): Captures {
    var x := FieldsAt(s, start);
    [Some(Clip(Span(s, start + 1, x.flags))), Some(Clip(Span(s, x.flags, x.width))),
     Some(Clip(Span(s, x.point, x.precision))), None]
  }

  lemma RunGroupThen(number: nat, cls: Class, rest: seq<Item>, s: Text, i: nat, start: nat, caps: Captures)
    ensures var e := RunEnd(cls, s, i);
            Match([RunGroupItem(number, cls)] + rest, s, i, start, caps) ==
            Match(rest, s, e, start, Capture(caps, number, Clip(Span(s, i, e))))
  {
    hide Match, RunGroupItem, RunEnd;
    MatchCons(RunGroupItem(number, cls), rest, s, i, start, caps);
    MatchRunGroup(number, cls, s, i, start, caps);
  }

  lemma FieldsMatched(s: Text, start: nat)
    requires Hit(Single('%'), s, start)
    ensures var d := FieldsAt(s, start).precision;
            Match(ITEMS_0, s, start, start, NO_CAPTURES) ==
            Outcome(if Hit(ANY, s, d) then Some(d + 1) else None, FieldTexts(s, start))
  {
    var x := FieldsAt(s, start);
    hide Match, RunGroupItem, RunEnd, Hit, Clip, Span, Capture, Single, DIGITS, FLAGS, ANY;
    MatchCons(Atom(Single('%'), One), ITEMS_1, s, start, start, NO_CAPTURES);
    MatchAtom(Single('%'), One, s, start, start, NO_CAPTURES);
    RunGroupThen(1, FLAGS, ITEMS_2, s, start + 1, start, NO_CAPTURES);
    var caps1 := Capture(NO_CAPTURES, 1, Clip(Span(s, start + 1, x.flags)));
    RunGroupThen(2, DIGITS, ITEMS_3, s, x.flags, start, caps1);
    var caps2 := Capture(caps1, 2, Clip(Span(s, x.flags, x.width)));
    MatchCons(Atom(Single('.'), Optional), ITEMS_4, s, x.width, start, caps2);
    MatchAtom(Single('.'), Optional, s, x.width, start, caps2);
    RunGroupThen(3, DIGITS, ITEMS_5, s, x.point, start, caps2);
    MatchAtom(ANY, One, s, x.precision, start, Capture(caps2, 3, Clip(Span(s, x.point, x.precision))));
    ThreeCaptures(Clip(Span(s, start + 1, x.flags)), Clip(Span(s, x.flags, x.width)),
                  Clip(Span(s, x.point, x.precision)));
  }

  lemma ThreeCaptures(a: Text, b: Text, c: Text)
    ensures Capture(Capture(Capture(NO_CAPTURES, 1, a), 2, b), 3, c) == [Some(a), Some(b), Some(c), None]
  {}

  /** Any conversion of any format is taken apart as meant: after the percent sign the
      longest run of flags, the longest run of digits, a full stop if there is one and
      the longest run of digits after it, and one more character. The number reported
      is 0 all the same. */
  lemma FieldsTaken(f: Text, s: Text, start: nat)
    requires IsFields(f)
    ensures WellFormed(f, 0)
    ensures var d := FieldsAt(s, start).precision;
            Report(f, s, start) ==
            if !Hit(Single('%'), s, start) then (0, start, NO_CAPTURES)
            else (0, if Hit(ANY, s, d) then d + 1 else start, FieldTexts(s, start))
  {
    hide IsFields, Parses, Match, Report, WellFormed, Hit, Single, FieldsAt, FieldTexts;
    FieldsParsed(f);
    ReportOne(f, s, start, ITEMS_0);
    if Hit(Single('%'), s, start) {
      FieldsMatched(s, start);
    } else {
      MatchCons(Atom(Single('%'), One), ITEMS_1, s, start, start, NO_CAPTURES);
      MatchAtom(Single('%'), One, s, start, start, NO_CAPTURES);
    }
  }

  // ---- Groups without a meaning ----

  /** A starred group goes back to two characters before its parenthesis. At the start
      of a pattern, as in `(a)*`, there is none: after a match the simulation stops. */
  lemma RepeatedGroupFirst(f: Text, s: Text, siIn: nat)
    requires |f| >= 4 && f[0] == '(' && f[2] == ')' && f[3] == '*' && f[1] !in SPECIAL + {'.', NUL} && siIn >= 1
    requires Hit(Single(f[1]), s, siIn - 1)
    ensures !Ends(f, s, siIn)
  {
    var x0 := Start(siIn);
    var x1 := x0.(fi := 1, sp := 2, mi := 1, fstack := x0.fstack[1 := 0], mstack := x0.mstack[1 := 1],
                  sstack := x0.sstack[1 := siIn], mistack := x0.mistack[1 := 1]);
    assert Turn(f, s, siIn, x0) == Going(x1);
    var x2 := x1.(fi := 2, si := siIn + 1, fstack := x1.fstack[2 := 2], mstack := x1.mstack[2 := 1],
                  sstack := x1.sstack[2 := siIn]);
    assert Turn(f, s, siIn, x1) == Going(x2);
    var x3 := x2.(fi := 3, sp := 1, caps := Capture(NO_CAPTURES, 1, CopyText(s, siIn, siIn, ROOM)));
    hide Hit, CopyText;
    assert Turn(f, s, siIn, x2) == Going(x3);
    var x4 := x3.(fi := -1);
    assert Turn(f, s, siIn, x3) == Going(x4);
    assert Turn(f, s, siIn, x4).Fault?;
    hide Turn, Turns;
    TwoTurns(f, s, siIn, x0, x1);
    TwoTurns(f, s, siIn, x2, x3);
    SingleTurn(f, s, siIn, x4);
    TurnsAdd(f, s, siIn, x2, 2, 1);
    TurnsAdd(f, s, siIn, x0, 2, 3);
    FaultNeverEnds(f, s, siIn, 5);
  }

  /** A group in a later alternative of a group is tried although an earlier
      alternative has matched: `(a|(b)c)` takes all of "ac". */
  lemma NestedGroupTried(f: Text, s: Text)
    requires f == ['(', 'a', '|', '(', 'b', ')', 'c', ')'] && s == ['a', 'c']
    ensures Ends(f, s, 1) && exists caps :: Reports(f, s, 1, (0, 3, caps))
  {
    var x := UntilReopened(f, s);
    var y := AfterReopened(f, s, x);
    hide Turn, Turns;
    SingleTurn(f, s, 1, y);
    TurnsAdd(f, s, 1, x, 4, 1);
    TurnsAdd(f, s, 1, Start(1), 4, 5);
    assert EndsIn(f, s, 1, 9);
    assert Reports(f, s, 1, (0, 3, y.caps));
  }

  /** The first alternative has matched and the inner group of the second is open. */
  predicate Reopened(x: Cfg) {
    x.fi == 4 && x.si == 2 && x.m == -1 && x.aii == 0 && x.sp == 3 && x.sstack[1] == 1 && x.mistack[1] == 1
  }

  lemma UntilReopened(f: Text, s: Text) returns (x: Cfg)
    requires f == ['(', 'a', '|', '(', 'b', ')', 'c', ')'] && s == ['a', 'c']
    ensures Turns(f, s, 1, Start(1), 4) == Going(x) && Reopened(x)
  {
    SingleHit('a', s, 0);
    hide Hit, CopyText, Capture;
    var x0 := Start(1);
    var x1 := Turn(f, s, 1, x0).x;
    var x2 := Turn(f, s, 1, x1).x;
    assert x1.fi == 1 && x1.sp == 2 && x1.m == 1 && x1.si == 1 && x1.sstack[1] == 1 && x1.mistack[1] == 1;
    assert x2.fi == 2 && x2.sp == 2 && x2.m == 1 && x2.si == 2 && x2.sstack[1] == 1 && x2.mistack[1] == 1;
    var x3 := Turn(f, s, 1, x2).x;
    x := Turn(f, s, 1, x3).x;
    hide Turn, Turns;
    TwoTurns(f, s, 1, x0, x1);
    TwoTurns(f, s, 1, x2, x3);
    TurnsAdd(f, s, 1, x0, 2, 2);
  }

  lemma AfterReopened(f: Text, s: Text, x: Cfg) returns (y: Cfg)
    requires f == ['(', 'a', '|', '(', 'b', ')', 'c', ')'] && s == ['a', 'c'] && Reopened(x)
    ensures Turns(f, s, 1, x, 4) == Going(y) && Turn(f, s, 1, y) == Done(1, 0, 3, y.caps)
  {
    SingleHit('c', s, 1);
    hide Hit, CopyText, Capture;
    var x5 := Turn(f, s, 1, x).x;
    var x6 := Turn(f, s, 1, x5).x;
    assert x6.fi == 6 && x6.sp == 2 && x6.m == 1 && x6.si == 2 && x6.sstack[1] == 1 && x6.mistack[1] == 1;
    var x7 := Turn(f, s, 1, x6).x;
    y := Turn(f, s, 1, x7).x;
    hide Turn, Turns;
    TwoTurns(f, s, 1, x, x5);
    TwoTurns(f, s, 1, x6, x7);
    TurnsAdd(f, s, 1, x, 2, 2);
  }
}
