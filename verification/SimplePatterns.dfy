/** What `regmatch` reports for simple patterns, in terms of the characters alone. The
    characters `c` and `d` stand for themselves; positions are counted from 1. */
module SimplePatterns {
  import opened Wrappers
  import opened Pattern
  import opened Matching
  import opened PatternFacts
  import opened RegTurn
  import opened RegRefine

  /** The subject has `c` at position `i`. */
  predicate Has(s: Text, i: nat, c: Character) {
    1 <= i <= |s| && s[i - 1] == c
  }

  predicate Plain(c: Character) {
    c !in SPECIAL && c != '.' && c != NUL
  }

  lemma PlainMeans(c: Character)
    ensures Plain(c) <==> c !in {'^', '$', '*', '?', '[', '(', ')', '{', '}', '|', '\\', '.', '\0'}
  {}

  function VerdictOn(siIn: nat, r: Outcome): Verdict {
    (0, if r.end.None? then siIn else r.end.value + 1, r.caps)
  }

  /** One alternative is reported as it matches. */
  lemma Says(f: Text, s: Text, siIn: nat, items: seq<Item>)
    requires siIn >= 1 && Parses(f, 0, NOTHING_SEEN, items)
    ensures Reports(f, s, siIn, VerdictOn(siIn, Match(items, s, siIn - 1, siIn - 1, NO_CAPTURES)))
  {
    hide Parses, Match, Reports, WellFormed;
    ReportOne(f, s, siIn - 1, items);
    ReportsMeaning(f, s, siIn);
  }

  lemma OnePiece(f: Text, s: Text, siIn: nat, item: Item, seen: Seen)
    requires siIn >= 1 && IsItem(f, 0, NOTHING_SEEN, item, |f|, seen)
    ensures Reports(f, s, siIn, VerdictOn(siIn, Match([item], s, siIn - 1, siIn - 1, NO_CAPTURES)))
  {
    hide IsItem, Parses, Match, Reports;
    ParsesEnd(f, seen);
    ParsesMore(f, 0, NOTHING_SEEN, item, |f|, seen, []);
    assert [item] + [] == [item];
    Says(f, s, siIn, [item]);
  }

  lemma TwoPieces(f: Text, s: Text, siIn: nat, x: Item, p: nat, y: Item)
    requires siIn >= 1
    requires IsItem(f, 0, NOTHING_SEEN, x, p, NOTHING_SEEN) && IsItem(f, p, NOTHING_SEEN, y, |f|, NOTHING_SEEN)
    ensures var r := Match([x], s, siIn - 1, siIn - 1, NO_CAPTURES);
            Reports(f, s, siIn, VerdictOn(siIn, if r.end.None? then r
                                                else Match([y], s, r.end.value, siIn - 1, r.caps)))
  {
    hide IsItem, Parses, Match, Reports;
    ParsesEnd(f, NOTHING_SEEN);
    ParsesMore(f, p, NOTHING_SEEN, y, |f|, NOTHING_SEEN, []);
    assert [y] + [] == [y];
    ParsesMore(f, 0, NOTHING_SEEN, x, p, NOTHING_SEEN, [y]);
    MatchCons(x, [y], s, siIn - 1, siIn - 1, NO_CAPTURES);
    Says(f, s, siIn, [x] + [y]);
  }

  // ---- The text of an item ----

  lemma IsMark(f: Text, p: nat, seen: Seen)
    requires p < |f| && f[p] in {'^', '$', '{', '}'}
    ensures IsItem(f, p, seen, if f[p] == '^' then LineStart else if f[p] == '$' then LineEnd else Nothing, p + 1, seen)
  {}

  lemma IsRepeated(f: Text, p: nat, seen: Seen)
    requires p + 1 < |f| && Plain(f[p]) && (f[p + 1] == '*' || f[p + 1] == '?')
    requires p + 2 < |f| ==> !Brace(f[p + 2]) && f[p + 2] != '?'
    ensures var c := Single(f[p]);
            IsItem(f, p, seen, Atom(c, if f[p + 1] == '*' then Star(c) else Optional), p + 2, seen)
  {
    assert SuffixAt(f, p) == p + 1 && SkipIdle(f, p + 2) == p + 2;
  }

  lemma IsEscape(f: Text, seen: Seen)
    requires |f| == 2 && f[0] == '\\'
    ensures IsItem(f, 0, seen, Atom(Single(f[1]), One), 2, seen)
  {
    assert SuffixAt(f, 0) == 2;
  }

  // ---- One character ----

  /** `c` takes the character, and nothing else. */
  lemma OneCharacter(c: Character, s: Text, siIn: nat)
    requires Plain(c) && siIn >= 1
    ensures Reports([c], s, siIn, (0, if Has(s, siIn, c) then siIn + 1 else siIn, NO_CAPTURES))
  {
    IsChar([c], 0, NOTHING_SEEN);
    hide Reports, IsItem, Match, Single, Hit;
    OnePiece([c], s, siIn, Atom(Single(c), One), NOTHING_SEEN);
    MatchAtom(Single(c), One, s, siIn - 1, siIn - 1, NO_CAPTURES);
    SingleHit(c, s, siIn - 1);
  }

  /** So does its escape, whatever the character. */
  lemma EscapedCharacter(c: Character, s: Text, siIn: nat)
    requires siIn >= 1 && c != NUL
    ensures Reports(['\\', c], s, siIn, (0, if Has(s, siIn, c) then siIn + 1 else siIn, NO_CAPTURES))
  {
    IsEscape(['\\', c], NOTHING_SEEN);
    hide Reports, IsItem, Match, Single, Hit;
    OnePiece(['\\', c], s, siIn, Atom(Single(c), One), NOTHING_SEEN);
    MatchAtom(Single(c), One, s, siIn - 1, siIn - 1, NO_CAPTURES);
    SingleHit(c, s, siIn - 1);
  }

  /** A full stop takes any character but NUL. */
  lemma AnyCharacter(s: Text, siIn: nat)
    requires siIn >= 1
    ensures Reports(['.'], s, siIn, (0, if siIn <= |s| && s[siIn - 1] != '\0' then siIn + 1 else siIn, NO_CAPTURES))
  {
    IsChar(['.'], 0, NOTHING_SEEN);
    hide Reports, IsItem, Match;
    OnePiece(['.'], s, siIn, Atom(ANY, One), NOTHING_SEEN);
    MatchAtom(ANY, One, s, siIn - 1, siIn - 1, NO_CAPTURES);
    assert siIn <= |s| ==> !Listed([], s[siIn - 1]);
  }

  /** Braces do nothing. */
  lemma BraceFirst(c: Character, s: Text, siIn: nat)
    requires Plain(c) && siIn >= 1
    ensures Reports(['{', c], s, siIn, (0, if Has(s, siIn, c) then siIn + 1 else siIn, NO_CAPTURES))
  {
    var f: Text := ['{', c];
    IsMark(f, 0, NOTHING_SEEN);
    IsChar(f, 1, NOTHING_SEEN);
    hide Reports, IsItem, Match, Single, Hit;
    TwoPieces(f, s, siIn, Nothing, 1, Atom(Single(c), One));
    MatchMark(Nothing, s, siIn - 1, siIn - 1, NO_CAPTURES);
    MatchAtom(Single(c), One, s, siIn - 1, siIn - 1, NO_CAPTURES);
    SingleHit(c, s, siIn - 1);
  }

  lemma BraceLast(c: Character, s: Text, siIn: nat)
    requires Plain(c) && siIn >= 1
    ensures Reports([c, '}'], s, siIn, (0, if Has(s, siIn, c) then siIn + 1 else siIn, NO_CAPTURES))
  {
    var f: Text := [c, '}'];
    IsMark(f, 1, NOTHING_SEEN);
    IsBraced(f);
    hide Reports, IsItem, Match, Single, Hit;
    TwoPieces(f, s, siIn, Atom(Single(c), One), 1, Nothing);
    MatchMark(Nothing, s, siIn, siIn - 1, NO_CAPTURES);
    MatchAtom(Single(c), One, s, siIn - 1, siIn - 1, NO_CAPTURES);
    SingleHit(c, s, siIn - 1);
  }

  lemma IsBraced(f: Text)
    requires |f| == 2 && Plain(f[0]) && f[1] == '}'
    ensures IsItem(f, 0, NOTHING_SEEN, Atom(Single(f[0]), One), 1, NOTHING_SEEN)
  {
    assert SkipBraces(f, 2) == 2 && SuffixAt(f, 0) == 2;
  }

  // ---- The ends of a line ----

  /** `$` holds at a NUL and right after the subject, and nowhere else. */
  lemma AtLineEnd(c: Character, s: Text, siIn: nat)
    requires Plain(c) && siIn >= 1
    ensures var hit := siIn <= |s| && s[siIn - 1] == c && (siIn == |s| || s[siIn] == '\0');
            Reports([c, '$'], s, siIn, (0, if hit then siIn + 1 else siIn, NO_CAPTURES))
  {
    var f: Text := [c, '$'];
    IsChar(f, 0, NOTHING_SEEN);
    IsMark(f, 1, NOTHING_SEEN);
    hide Reports, IsItem, Match, Single, Hit;
    TwoPieces(f, s, siIn, Atom(Single(c), One), 1, LineEnd);
    MatchAtom(Single(c), One, s, siIn - 1, siIn - 1, NO_CAPTURES);
    MatchMark(LineEnd, s, siIn, siIn - 1, NO_CAPTURES);
    SingleHit(c, s, siIn - 1);
  }

  /** `^` holds where matching started, and nowhere else. */
  lemma AtLineStart(c: Character, s: Text, siIn: nat)
    requires Plain(c) && siIn >= 1
    ensures Reports(['^', c], s, siIn, (0, if Has(s, siIn, c) then siIn + 1 else siIn, NO_CAPTURES))
    ensures Reports([c, '^'], s, siIn, (0, siIn, NO_CAPTURES))
  {
    var f: Text, g: Text := ['^', c], [c, '^'];
    IsMark(f, 0, NOTHING_SEEN);
    IsChar(f, 1, NOTHING_SEEN);
    IsChar(g, 0, NOTHING_SEEN);
    IsMark(g, 1, NOTHING_SEEN);
    hide Reports, IsItem, Match, Single, Hit;
    TwoPieces(f, s, siIn, LineStart, 1, Atom(Single(c), One));
    TwoPieces(g, s, siIn, Atom(Single(c), One), 1, LineStart);
    MatchAtom(Single(c), One, s, siIn - 1, siIn - 1, NO_CAPTURES);
    MatchMark(LineStart, s, siIn - 1, siIn - 1, NO_CAPTURES);
    MatchMark(LineStart, s, siIn, siIn - 1, NO_CAPTURES);
    SingleHit(c, s, siIn - 1);
  }

  // ---- Repetition ----

  /** `c?d` takes the character `c` if it is there, and then needs `d`. */
  lemma OptionThen(c: Character, d: Character, s: Text, siIn: nat)
    requires Plain(c) && Plain(d) && siIn >= 1
    ensures var i := if Has(s, siIn, c) then siIn + 1 else siIn;
            Reports([c, '?', d], s, siIn, (0, if Has(s, i, d) then i + 1 else siIn, NO_CAPTURES))
  {
    hide Reports, IsItem, Match, Single, Hit, Plain, Has;
    var f: Text := [c, '?', d];
    OptionText(f, c, d);
    TwoPieces(f, s, siIn, Atom(Single(c), Optional), 2, Atom(Single(d), One));
    OptionMatched(c, d, s, siIn);
  }

  lemma OptionText(f: Text, c: Character, d: Character)
    requires f == [c, '?', d] && Plain(c) && Plain(d)
    ensures IsItem(f, 0, NOTHING_SEEN, Atom(Single(c), Optional), 2, NOTHING_SEEN)
    ensures IsItem(f, 2, NOTHING_SEEN, Atom(Single(d), One), |f|, NOTHING_SEEN)
  {
    IsRepeated(f, 0, NOTHING_SEEN);
    IsChar(f, 2, NOTHING_SEEN);
  }

  lemma OptionMatched(c: Character, d: Character, s: Text, siIn: nat)
    requires Plain(c) && Plain(d) && siIn >= 1
    ensures var i := if Has(s, siIn, c) then siIn + 1 else siIn;
            Match([Atom(Single(c), Optional)], s, siIn - 1, siIn - 1, NO_CAPTURES) ==
            Outcome(Some(i - 1), NO_CAPTURES) &&
            Match([Atom(Single(d), One)], s, i - 1, siIn - 1, NO_CAPTURES) ==
            Outcome(if Has(s, i, d) then Some(i) else None, NO_CAPTURES)
  {
    hide Match, Single, Hit;
    var i := if Has(s, siIn, c) then siIn + 1 else siIn;
    MatchAtom(Single(c), Optional, s, siIn - 1, siIn - 1, NO_CAPTURES);
    MatchAtom(Single(d), One, s, i - 1, siIn - 1, NO_CAPTURES);
    SingleHit(c, s, siIn - 1);
    SingleHit(d, s, i - 1);
  }

  /** `c*` takes every `c` up to the first other character, or the end. */
  lemma StarRun(c: Character, s: Text, siIn: nat, e: nat)
    requires Plain(c) && 1 <= siIn <= e
    requires (forall k :: siIn <= k < e ==> Has(s, k, c)) && !Has(s, e, c)
    ensures Reports([c, '*'], s, siIn, (0, e, NO_CAPTURES))
  {
    var f: Text := [c, '*'];
    IsRepeated(f, 0, NOTHING_SEEN);
    hide Reports, IsItem, Match, Single, Hit;
    OnePiece(f, s, siIn, Atom(Single(c), Star(Single(c))), NOTHING_SEEN);
    MatchStar(Single(c), Single(c), s, siIn - 1, siIn - 1, NO_CAPTURES);
    RunUpTo(c, s, siIn - 1, e - 1);
  }

  lemma {:induction false} RunUpTo(c: Character, s: Text, i: nat, e: nat)
    requires c != NUL && i <= e && (forall k :: i < k <= e ==> Has(s, k, c)) && !Has(s, e + 1, c)
    ensures StarEnd(Single(c), Single(c), s, i) == RunEnd(Single(c), s, i) == e
    decreases e - i
  {
    SingleHit(c, s, i);
    hide Single;
    if i == e {
    } else {
      assert Has(s, i + 1, c);
      RunUpTo(c, s, i + 1, e);
    }
  }

  /** And gives none of them back: `c*c` never matches. */
  lemma StarThenSame(c: Character, s: Text, siIn: nat)
    requires Plain(c) && siIn >= 1
    ensures Reports([c, '*', c], s, siIn, (0, siIn, NO_CAPTURES))
  {
    var f: Text := [c, '*', c];
    IsRepeated(f, 0, NOTHING_SEEN);
    IsChar(f, 2, NOTHING_SEEN);
    hide Reports, IsItem, Match, Single, Hit;
    TwoPieces(f, s, siIn, Atom(Single(c), Star(Single(c))), 2, Atom(Single(c), One));
    MatchStar(Single(c), Single(c), s, siIn - 1, siIn - 1, NO_CAPTURES);
    var e := StarEnd(Single(c), Single(c), s, siIn - 1);
    MatchAtom(Single(c), One, s, e, siIn - 1, NO_CAPTURES);
  }

  // ---- Classes ----

  /** A class that lists `ranges` and ends the text. */
  lemma OneClass(f: Text, s: Text, siIn: nat, ranges: seq<Range>)
    requires siIn >= 1 && |f| >= 2 && f[0] == '[' && f[|f| - 1] == ']'
    requires ScanClass(f, 0, NUL) == Scanned(ranges, |f| - 1)
    ensures var hit := siIn <= |s| && s[siIn - 1] != '\0' && Listed(ranges, s[siIn - 1]) != (f[1] == '^');
            Reports(f, s, siIn, (0, if hit then siIn + 1 else siIn, NO_CAPTURES))
  {
    var cls := Class(f[1] == '^', ranges);
    assert SuffixAt(f, 0) == |f|;
    assert IsItem(f, 0, NOTHING_SEEN, Atom(cls, One), |f|, Seen(true, 0));
    hide Reports, IsItem, Match, ScanClass, Scan, Listed;
    OnePiece(f, s, siIn, Atom(cls, One), Seen(true, 0));
    MatchAtom(cls, One, s, siIn - 1, siIn - 1, NO_CAPTURES);
  }

  lemma ListedTwo(x: Range, y: Range, c: Character)
    ensures Listed([x, y], c) <==> x.lo <= c <= x.hi || y.lo <= c <= y.hi
    ensures Listed([x], c) <==> x.lo <= c <= x.hi
  {
    assert [x, y][0] == x && [x, y][1] == y && [x][0] == x;
  }

  /** `[a-z]` takes a character from `a` to `z`, and `a` in any case. */
  lemma RangeClass(lo: Character, hi: Character, s: Text, siIn: nat)
    requires lo !in {'\\', ']', '-', '^'} && hi != ']' && siIn >= 1
    ensures var hit := siIn <= |s| && s[siIn - 1] != '\0' && (s[siIn - 1] == lo || lo <= s[siIn - 1] <= hi);
            Reports(['[', lo, '-', hi, ']'], s, siIn, (0, if hit then siIn + 1 else siIn, NO_CAPTURES))
  {
    var f: Text := ['[', lo, '-', hi, ']'];
    RangeText(f, 1, lo, hi);
    hide Reports, Scan;
    OneClass(f, s, siIn, [Range(lo, lo), Range(lo, hi)]);
    if siIn <= |s| {
      ListedTwo(Range(lo, lo), Range(lo, hi), s[siIn - 1]);
    }
  }

  /** `[^a-z]` takes any other character but NUL. */
  lemma NegatedRangeClass(lo: Character, hi: Character, s: Text, siIn: nat)
    requires lo !in {'\\', ']', '-'} && hi != ']' && siIn >= 1
    ensures var hit := siIn <= |s| && s[siIn - 1] != '\0' && s[siIn - 1] != lo && !(lo <= s[siIn - 1] <= hi);
            Reports(['[', '^', lo, '-', hi, ']'], s, siIn, (0, if hit then siIn + 1 else siIn, NO_CAPTURES))
  {
    var f: Text := ['[', '^', lo, '-', hi, ']'];
    RangeText(f, 2, lo, hi);
    hide Reports, Scan;
    OneClass(f, s, siIn, [Range(lo, lo), Range(lo, hi)]);
    if siIn <= |s| {
      ListedTwo(Range(lo, lo), Range(lo, hi), s[siIn - 1]);
    }
  }

  lemma RangeText(f: Text, p: nat, lo: Character, hi: Character)
    requires |f| == p + 4 && f[p] == lo && f[p + 1] == '-' && f[p + 2] == hi && f[p + 3] == ']'
    requires lo !in {'\\', ']', '-'} && hi != ']'
    ensures forall first, previous :: Scan(f, p, first, previous) == Scanned([Range(lo, lo), Range(lo, hi)], p + 3)
  {
    assert Scan(f, p + 3, false, '-') == Scanned([], p + 3);
    assert Scan(f, p + 1, false, lo) == Scanned([Range(lo, hi)], p + 3);
    assert [Range(lo, lo)] + [Range(lo, hi)] == [Range(lo, lo), Range(lo, hi)];
  }

  /** In a class an escaped letter is a control character, and any other character is
      itself. */
  lemma EscapeClass(x: Character, s: Text, siIn: nat)
    requires siIn >= 1
    ensures var code := match x
                        case 'a' => 7
                        case 'b' => 8
                        case 't' => 9
                        case 'n' => 10
                        case 'v' => 11
                        case 'f' => 12
                        case 'r' => 13
                        case _ => x as int;
            var hit := siIn <= |s| && s[siIn - 1] != '\0' && s[siIn - 1] as int == code;
            Reports(['[', '\\', x, ']'], s, siIn, (0, if hit then siIn + 1 else siIn, NO_CAPTURES))
  {
    var f: Text, e := ['[', '\\', x, ']'], Escaped(x);
    assert Scan(f, 3, false, '\\') == Scanned([], 3);
    assert Scan(f, 1, true, NUL) == Scanned([Range(e, e)], 3);
    hide Reports, Scan;
    OneClass(f, s, siIn, [Range(e, e)]);
    if siIn <= |s| {
      ListedTwo(Range(e, e), Range(e, e), s[siIn - 1]);
    }
  }

  /** A closing bracket listed first is an ordinary character: `[]]` and `[^]]`. */
  lemma BracketClass(s: Text, siIn: nat)
    requires siIn >= 1
    ensures Reports(['[', ']', ']'], s, siIn, (0, if Has(s, siIn, ']') then siIn + 1 else siIn, NO_CAPTURES))
    ensures var hit := siIn <= |s| && s[siIn - 1] != '\0' && s[siIn - 1] != ']';
            Reports(['[', '^', ']', ']'], s, siIn, (0, if hit then siIn + 1 else siIn, NO_CAPTURES))
  {
    var f: Text, g: Text, r := ['[', ']', ']'], ['[', '^', ']', ']'], Range(']', ']');
    assert Scan(f, 2, false, ']') == Scanned([], 2) && Scan(f, 1, true, NUL) == Scanned([r], 2);
    assert Scan(g, 3, false, ']') == Scanned([], 3) && Scan(g, 2, true, '^') == Scanned([r], 3);
    hide Reports, Scan;
    OneClass(f, s, siIn, [r]);
    OneClass(g, s, siIn, [r]);
    if siIn <= |s| {
      ListedTwo(r, r, s[siIn - 1]);
    }
  }

  // ---- Alternatives ----

  /** From `p` to `q` the text is one alternative of `items`, with no class. */
  predicate Reads(f: Text, p: nat, items: seq<Item>, q: nat) {
    AltOk(f, p, 1, true) && EndFrom(f, p) == q && Items(f, p, NOTHING_SEEN) == items &&
    !SeenFrom(f, p, NOTHING_SEEN).read
  }

  lemma ReadsNone(f: Text, q: nat)
    requires AltEnd(f, q)
    ensures Reads(f, q, [], q)
  {}

  lemma ReadsMore(f: Text, p: nat, item: Item, next: nat, items: seq<Item>, q: nat)
    requires IsItem(f, p, NOTHING_SEEN, item, next, NOTHING_SEEN) && Reads(f, next, items, q)
    ensures Reads(f, p, [item] + items, q)
  {
    hide ItemAt, After, SeenBy, ItemOk;
  }

  /** Of two alternatives, each the one item read at its place, the first that matches is
      reported, and the second by its number only if the text goes on with a NUL. */
  lemma TwoAlternatives(f: Text, s: Text, siIn: nat, xs: seq<Item>, q: nat, ys: seq<Item>, e: nat)
    requires siIn >= 1 && Reads(f, 0, xs, q) && q < |f| && f[q] == '|'
    requires Reads(f, q + 1, ys, e) && (e >= |f| || f[e] == NUL)
    ensures var r1 := Match(xs, s, siIn - 1, siIn - 1, NO_CAPTURES);
            var r2 := Match(ys, s, siIn - 1, siIn - 1, r1.caps);
            Reports(f, s, siIn, if r1.end.Some? then (1, r1.end.value + 1, r1.caps)
                                else if r2.end.Some? then (if e < |f| then 2 else 1, r2.end.value + 1, r2.caps)
                                else (0, siIn, r2.caps))
  {
    hide Items, EndFrom, SeenFrom, AltOk, Match, Reports, WellFormed, ReportFrom, Report, Reads;
    BothWellFormed(f, xs, q, ys, e);
    var r1 := Match(xs, s, siIn - 1, siIn - 1, NO_CAPTURES);
    ReportIs(f, s, siIn - 1);
    ReportStep(f, 0, NOTHING_SEEN, s, siIn - 1, 0, NO_CAPTURES);
    ReportStep(f, q + 1, NOTHING_SEEN, s, siIn - 1, 1, r1.caps);
    ReportsMeaning(f, s, siIn);
  }

  lemma BothWellFormed(f: Text, xs: seq<Item>, q: nat, ys: seq<Item>, e: nat)
    requires Reads(f, 0, xs, q) && q < |f| && f[q] == '|' && Reads(f, q + 1, ys, e) && (e >= |f| || f[e] == NUL)
    ensures WellFormed(f, 0) && EndFrom(f, 0) == q && EndFrom(f, q + 1) == e
    ensures Items(f, 0, NOTHING_SEEN) == xs && Items(f, q + 1, NOTHING_SEEN) == ys
    ensures SeenFrom(f, 0, NOTHING_SEEN).(groups := 0) == NOTHING_SEEN
  {
    hide Items, AltOk, SeenFrom;
    assert WellFormed(f, q + 1);
  }

  lemma OneCharacterMatched(c: Character, s: Text, siIn: nat)
    requires Plain(c) && siIn >= 1
    ensures Match([Atom(Single(c), One)] + [], s, siIn - 1, siIn - 1, NO_CAPTURES) ==
            Outcome(if Has(s, siIn, c) then Some(siIn) else None, NO_CAPTURES)
  {
    assert [Atom(Single(c), One)] + [] == [Atom(Single(c), One)];
    MatchAtom(Single(c), One, s, siIn - 1, siIn - 1, NO_CAPTURES);
    SingleHit(c, s, siIn - 1);
  }

  /** `c|d` tries `c` and then `d`; both are reported as alternative 1. */
  lemma EitherCharacter(c: Character, d: Character, s: Text, siIn: nat)
    requires Plain(c) && Plain(d) && siIn >= 1
    ensures Reports([c, '|', d], s, siIn, if Has(s, siIn, c) || Has(s, siIn, d) then (1, siIn + 1, NO_CAPTURES)
                                          else (0, siIn, NO_CAPTURES))
  {
    var f: Text := [c, '|', d];
    IsChar(f, 0, NOTHING_SEEN);
    IsChar(f, 2, NOTHING_SEEN);
    ReadsNone(f, 1);
    ReadsNone(f, 3);
    hide Reports, IsItem, Match, Reads, Single, Has;
    ReadsMore(f, 0, Atom(Single(c), One), 1, [], 1);
    ReadsMore(f, 2, Atom(Single(d), One), 3, [], 3);
    TwoAlternatives(f, s, siIn, [Atom(Single(c), One)] + [], 1, [Atom(Single(d), One)] + [], 3);
    OneCharacterMatched(c, s, siIn);
    OneCharacterMatched(d, s, siIn);
  }

  /** With a closing NUL the second is reported as 2. */
  lemma EitherCharacterNul(c: Character, d: Character, s: Text, siIn: nat)
    requires Plain(c) && Plain(d) && siIn >= 1
    ensures Reports([c, '|', d, '\0'], s, siIn, if Has(s, siIn, c) then (1, siIn + 1, NO_CAPTURES)
                                                else if Has(s, siIn, d) then (2, siIn + 1, NO_CAPTURES)
                                                else (0, siIn, NO_CAPTURES))
  {
    var f: Text := [c, '|', d, '\0'];
    IsChar(f, 0, NOTHING_SEEN);
    IsChar(f, 2, NOTHING_SEEN);
    ReadsNone(f, 1);
    ReadsNone(f, 3);
    hide Reports, IsItem, Match, Reads, Single, Has;
    ReadsMore(f, 0, Atom(Single(c), One), 1, [], 1);
    ReadsMore(f, 2, Atom(Single(d), One), 3, [], 3);
    TwoAlternatives(f, s, siIn, [Atom(Single(c), One)] + [], 1, [Atom(Single(d), One)] + [], 3);
    OneCharacterMatched(c, s, siIn);
    OneCharacterMatched(d, s, siIn);
  }

  /** `^$|c`, the beginning of the patterns with which stdio_h.vhdl goes through a
      format, takes alternative 1 without a character if and only if the format is
      used up. */
  lemma UsedUp(c: Character, s: Text, siIn: nat)
    requires Plain(c) && 1 <= siIn <= |s| + 1
    ensures Reports(['^', '$', '|', c], s, siIn, (1, siIn, NO_CAPTURES)) <==> siIn == |s| + 1 || s[siIn - 1] == '\0'
  {
    var f: Text := ['^', '$', '|', c];
    UsedUpReports(f, c, s, siIn);
    hide Reports, Has;
    if siIn <= |s| && s[siIn - 1] != '\0' && Reports(f, s, siIn, (1, siIn, NO_CAPTURES)) {
      var v: Verdict := if Has(s, siIn, c) then (1, siIn + 1, NO_CAPTURES) else (0, siIn, NO_CAPTURES);
      ReportsOnce(f, s, siIn, (1, siIn, NO_CAPTURES), v);
    }
  }

  lemma UsedUpReports(f: Text, c: Character, s: Text, siIn: nat)
    requires f == ['^', '$', '|', c] && Plain(c) && 1 <= siIn <= |s| + 1
    ensures Reports(f, s, siIn, if siIn == |s| + 1 || s[siIn - 1] == '\0' then (1, siIn, NO_CAPTURES)
                                else if Has(s, siIn, c) then (1, siIn + 1, NO_CAPTURES)
                                else (0, siIn, NO_CAPTURES))
  {
    UsedUpReads(f, c);
    hide Reports, Match, Reads, Single, Has;
    TwoAlternatives(f, s, siIn, [LineStart] + [LineEnd], 2, [Atom(Single(c), One)] + [], 4);
    MatchCons(LineStart, [LineEnd], s, siIn - 1, siIn - 1, NO_CAPTURES);
    MatchMark(LineStart, s, siIn - 1, siIn - 1, NO_CAPTURES);
    MatchMark(LineEnd, s, siIn - 1, siIn - 1, NO_CAPTURES);
    OneCharacterMatched(c, s, siIn);
  }

  lemma UsedUpReads(f: Text, c: Character)
    requires f == ['^', '$', '|', c] && Plain(c)
    ensures Reads(f, 0, [LineStart] + [LineEnd], 2) && Reads(f, 3, [Atom(Single(c), One)] + [], 4)
  {
    IsMark(f, 0, NOTHING_SEEN);
    IsMark(f, 1, NOTHING_SEEN);
    IsChar(f, 3, NOTHING_SEEN);
    ReadsNone(f, 2);
    ReadsNone(f, 4);
    hide IsItem, Reads, Single;
    ReadsMore(f, 1, LineEnd, 2, [], 2);
    assert [LineEnd] + [] == [LineEnd];
    ReadsMore(f, 0, LineStart, 1, [LineEnd], 2);
    ReadsMore(f, 3, Atom(Single(c), One), 4, [], 4);
  }

  // ---- Groups ----

  /** A group of a repeated full stop, and what is in it. */
  lemma RestGroup(f: Text)
    requires |f| == 4 && f[0] == '(' && f[1] == '.' && f[2] == '*' && f[3] == ')'
    ensures IsItem(f, 0, NOTHING_SEEN, Group(1, [Alternative([Atom(ANY, Star(ANY))])], false), 4, Seen(false, 1))
  {
    var seen := Seen(false, 1);
    assert SuffixAt(f, 1) == 2 && SkipIdle(f, 3) == 3 && After(f, 1) == 3;
    assert AltEnd(f, 3);
    assert EndFrom(f, 3) == 3 && Items(f, 3, seen) == [] && AltOk(f, 3, 2, true) && SeenFrom(f, 3, seen) == seen;
    assert ItemAt(f, 1, seen) == Atom(ANY, Star(ANY));
    assert SeenBy(f, 1, seen) == seen && !AltEnd(f, 1);
    assert EndFrom(f, 1) == 3;
    assert Items(f, 1, seen) == [Atom(ANY, Star(ANY))] + Items(f, 3, seen);
    assert Items(f, 1, seen) == [Atom(ANY, Star(ANY))];
    assert SeenFrom(f, 1, seen) == SeenFrom(f, 3, SeenBy(f, 1, seen));
    assert AltOk(f, 1, 2, true);
    assert GroupEnd(f, 1) == 4 && GroupOk(f, 1, 2, true) && SeenGroup(f, 1, seen) == seen;
    assert GroupAlts(f, 1, seen) == [Alternative([Atom(ANY, Star(ANY))])];
    assert SkipBraces(f, 4) == 4;
  }

  /** `(.*)` captures the subject up to its first NUL, or its end, but no more than 79
      characters of it. */
  lemma RestCaptured(f: Text, s: Text, siIn: nat, e: nat)
    requires |f| == 4 && f[0] == '(' && f[1] == '.' && f[2] == '*' && f[3] == ')'
    requires 1 <= siIn <= e <= |s| + 1 && (e <= |s| ==> s[e - 1] == '\0')
    requires forall k :: siIn - 1 <= k < e - 1 ==> s[k] != '\0'
    ensures var text := s[siIn - 1..e - 1];
            var kept := if |text| > 79 then text[..79] else text;
            Reports(f, s, siIn, (0, e, [Some(kept), None, None, None]))
  {
    var item := Group(1, [Alternative([Atom(ANY, Star(ANY))])], false);
    RestGroup(f);
    hide Reports, IsItem, Match, Capture, Clip;
    FirstCapture(s[siIn - 1..e - 1]);
    OnePiece(f, s, siIn, item, Seen(false, 1));
    RestMatched(s, siIn - 1, e - 1);
  }

  lemma FirstCapture(text: Text)
    ensures Capture(NO_CAPTURES, 1, Clip(text)) ==
            [Some(if |text| > 79 then text[..79] else text), None, None, None]
  {}

  lemma RestMatched(s: Text, i: nat, e: nat)
    requires i <= e <= |s| && (e < |s| ==> s[e] == NUL) && forall k :: i <= k < e ==> s[k] != NUL
    ensures Match([Group(1, [Alternative([Atom(ANY, Star(ANY))])], false)], s, i, i, NO_CAPTURES) ==
            Outcome(Some(e), Capture(NO_CAPTURES, 1, Clip(s[i..e])))
  {
    var items := [Atom(ANY, Star(ANY))];
    AnyRun(s, i, e);
    hide Match, Choose, Capture, Clip, StarEnd, ANY;
    MatchGroup(1, [Alternative(items)], false, s, i, i, NO_CAPTURES);
    ChooseFrom(items, [], 1, s, i, i, NO_CAPTURES);
    assert [Alternative(items)] + [] == [Alternative(items)];
    MatchStar(ANY, ANY, s, i, i, NO_CAPTURES);
  }

  lemma {:induction false} AnyRun(s: Text, i: nat, e: nat)
    requires i <= e <= |s| && (e < |s| ==> s[e] == NUL) && forall k :: i <= k < e ==> s[k] != NUL
    ensures StarEnd(ANY, ANY, s, i) == RunEnd(ANY, s, i) == e
    decreases e - i
  {
    assert i < |s| ==> !Listed([], s[i]);
    if i == e {
      assert !Hit(ANY, s, i);
    } else {
      assert Hit(ANY, s, i);
      AnyRun(s, i + 1, e);
    }
  }

  function OneOf(c: Character, d: Character, optional: bool): Item {
    Group(1, [Alternative([Atom(Single(c), One)]), Alternative([Atom(Single(d), One)])], optional)
  }

  /** A group of two characters, and an option or none after it. */
  lemma EitherGroup(f: Text, c: Character, d: Character)
    requires |f| >= 5 && f[0] == '(' && f[1] == c && f[2] == '|' && f[3] == d && f[4] == ')' && Plain(c) && Plain(d)
    requires |f| == 5 || (|f| == 6 && f[5] == '?')
    ensures IsItem(f, 0, NOTHING_SEEN, OneOf(c, d, |f| == 6), |f|, Seen(false, 1))
  {
    var seen := Seen(false, 1);
    CharacterIn(f, 1, 2, seen);
    CharacterIn(f, 3, 4, seen);
    hide Items, EndFrom, AltOk, SeenFrom, Single;
    assert SeenGroup(f, 3, seen) == seen && SeenGroup(f, 1, seen) == seen;
    assert GroupEnd(f, 3) == 5 && GroupEnd(f, 1) == 5;
    assert GroupOk(f, 3, 2, false) && GroupOk(f, 1, 2, true);
    assert GroupAlts(f, 3, seen) == [Alternative([Atom(Single(d), One)])];
    assert GroupAlts(f, 1, seen) == [Alternative([Atom(Single(c), One)])] + GroupAlts(f, 3, seen);
    assert SkipBraces(f, 5) == 5;
  }

  lemma CharacterIn(f: Text, p: nat, q: nat, seen: Seen)
    requires q == p + 1 < |f| && Plain(f[p]) && (f[q] == '|' || f[q] == ')')
    ensures EndFrom(f, p) == q && Items(f, p, seen) == [Atom(Single(f[p]), One)] && SeenFrom(f, p, seen) == seen &&
            AltOk(f, p, 2, true) && AltOk(f, p, 2, false)
  {
    assert SuffixAt(f, p) == q && After(f, p) == q && SeenBy(f, p, seen) == seen;
    assert EndFrom(f, q) == q && Items(f, q, seen) == [] && SeenFrom(f, q, seen) == seen;
    assert AltOk(f, q, 2, true) && AltOk(f, q, 2, false);
    assert ItemAt(f, p, seen) == Atom(Single(f[p]), One);
    assert Items(f, p, seen) == [Atom(Single(f[p]), One)] + Items(f, q, seen);
  }

  /** `(c|d)` takes either character and captures it; `(c|d)?` reports the same. */
  lemma EitherCaptured(f: Text, c: Character, d: Character, s: Text, siIn: nat)
    requires |f| >= 5 && f[0] == '(' && f[1] == c && f[2] == '|' && f[3] == d && f[4] == ')' && Plain(c) && Plain(d)
    requires |f| == 5 || (|f| == 6 && f[5] == '?')
    requires siIn >= 1
    ensures Reports(f, s, siIn, if Has(s, siIn, c) then (0, siIn + 1, [Some([c]), None, None, None])
                                else if Has(s, siIn, d) then (0, siIn + 1, [Some([d]), None, None, None])
                                else (0, siIn, NO_CAPTURES))
  {
    EitherGroup(f, c, d);
    EitherMatched(c, d, |f| == 6, s, siIn - 1);
    hide Reports, IsItem, Match, OneOf;
    OnePiece(f, s, siIn, OneOf(c, d, |f| == 6), Seen(false, 1));
  }

  lemma EitherMatched(c: Character, d: Character, optional: bool, s: Text, i: nat)
    requires Plain(c) && Plain(d)
    ensures Match([OneOf(c, d, optional)], s, i, i, NO_CAPTURES) ==
            if Has(s, i + 1, c) then Outcome(Some(i + 1), [Some([c]), None, None, None])
            else if Has(s, i + 1, d) then Outcome(Some(i + 1), [Some([d]), None, None, None])
            else Outcome(if optional then Some(i) else None, NO_CAPTURES)
  {
    var xs, ys := [Atom(Single(c), One)], [Atom(Single(d), One)];
    SingleHit(c, s, i);
    SingleHit(d, s, i);
    FirstCapture([c]);
    FirstCapture([d]);
    assert i < |s| ==> Span(s, i, i + 1) == [s[i]];
    hide Match, Choose, Single, Hit, Capture, Clip, Span;
    MatchGroup(1, [Alternative(xs), Alternative(ys)], optional, s, i, i, NO_CAPTURES);
    assert [Alternative(xs)] + [Alternative(ys)] == [Alternative(xs), Alternative(ys)];
    assert [Alternative(ys)] + [] == [Alternative(ys)];
    ChooseFrom(xs, [Alternative(ys)], 1, s, i, i, NO_CAPTURES);
    ChooseFrom(ys, [], 1, s, i, i, NO_CAPTURES);
    MatchAtom(Single(c), One, s, i, i, NO_CAPTURES);
    MatchAtom(Single(d), One, s, i, i, NO_CAPTURES);
  }
}
