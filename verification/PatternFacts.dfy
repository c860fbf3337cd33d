/** The number regexp_h.vhdl reports for an alternative. */
module PatternFacts {
  import opened Wrappers
  import opened Pattern
  import opened Matching

  /** A pattern of one item. */
  lemma OneItem(f: Text, s: Text, start: nat, item: Item)
    requires f != [] && !AltEnd(f, 0) && After(f, 0) >= |f| && ItemAt(f, 0, NOTHING_SEEN) == item
    requires ItemOk(f, 0, 1, true)
    ensures WellFormed(f, 0)
    ensures var r := Match([item], s, start, start, NO_CAPTURES);
            Report(f, s, start) == if r.end.None? then (0, start, r.caps) else (0, r.end.value, r.caps)
  {
    var e := After(f, 0);
    assert AltEnd(f, e) && EndFrom(f, e) == e && EndFrom(f, 0) == e;
    assert Items(f, e, SeenBy(f, 0, NOTHING_SEEN)) == [];
    assert Items(f, 0, NOTHING_SEEN) == [item];
    var alts := Alts(f, 0, NOTHING_SEEN);
    assert alts == [Alternative([item])];
    assert !Terminated(f, 0);
    var r := Match([item], s, start, start, NO_CAPTURES);
    assert alts[1..] == [];
    assert FirstMatch([], s, start, r.caps) == Found(None, r.caps);
  }

  // ---- Patterns of one alternative, item by item ----

  /** From `p` on, the text is one alternative of `items`, outside groups. */
  predicate Parses(f: Text, p: nat, seen: Seen, items: seq<Item>) {
    AltOk(f, p, 1, true) && EndFrom(f, p) >= |f| && Items(f, p, seen) == items
  }

  /** The text of an item, which ends at `q`. */
  predicate IsItem(f: Text, p: nat, seen: Seen, item: Item, q: nat, seen': Seen) {
    p < |f| && !AltEnd(f, p) && ItemOk(f, p, 1, true) &&
    ItemAt(f, p, seen) == item && After(f, p) == q && SeenBy(f, p, seen) == seen'
  }

  lemma ParsesMore(f: Text, p: nat, seen: Seen, item: Item, q: nat, seen': Seen, rest: seq<Item>)
    requires IsItem(f, p, seen, item, q, seen') && Parses(f, q, seen', rest)
    ensures Parses(f, p, seen, [item] + rest)
  {
    hide ItemAt, After, SeenBy, ItemOk;
  }

  lemma ParsesEnd(f: Text, seen: Seen)
    ensures Parses(f, |f|, seen, [])
  {}

  /** A character that stands for itself, or a full stop, with no repetition. */
  lemma IsChar(f: Text, p: nat, seen: Seen)
    requires p < |f| && f[p] !in SPECIAL + {NUL} && (p + 1 < |f| ==> !Brace(f[p + 1]) && !AtSuffix(f, p + 1))
    ensures IsItem(f, p, seen, Atom(if f[p] == '.' then ANY else Single(f[p]), One), p + 1, seen)
  {
    assert SuffixAt(f, p) == p + 1;
  }

  /** One alternative, and no closing NUL. */
  lemma ReportOne(f: Text, s: Text, start: nat, items: seq<Item>)
    requires Parses(f, 0, NOTHING_SEEN, items)
    ensures WellFormed(f, 0)
    ensures var r := Match(items, s, start, start, NO_CAPTURES);
            Report(f, s, start) == if r.end.None? then (0, start, r.caps) else (0, r.end.value, r.caps)
  {
    var r := Match(items, s, start, start, NO_CAPTURES);
    hide Items, EndFrom, AltOk, Match;
    var alts := Alts(f, 0, NOTHING_SEEN);
    assert alts == [Alternative(items)] && alts[1..] == [];
    assert FirstMatch([], s, start, r.caps) == Found(None, r.caps);
  }

  // ---- The number reported ----

  ghost predicate Matches(f: Text, s: Text, start: nat) {
    FirstMatch(Alts(f, 0, NOTHING_SEEN), s, start, NO_CAPTURES).at.Some?
  }

  /** Which alternative matches, counted from 1. */
  function Position(f: Text, s: Text, start: nat): nat
    requires Matches(f, s, start)
  {
    FirstMatch(Alts(f, 0, NOTHING_SEEN), s, start, NO_CAPTURES).at.value.0 + 1
  }

  /** The bars of a pattern, outside groups. */
  function BarsFrom(f: Text, p: nat): nat
    decreases |f| - p
  {
    var q := EndFrom(f, p);
    if q < |f| && f[q] == '|' then 1 + BarsFrom(f, q + 1) else 0
  }

  lemma {:induction false} OneMoreThanBars(f: Text, p: nat, seen: Seen)
    ensures |Alts(f, p, seen)| == BarsFrom(f, p) + 1
    decreases |f| - p
  {
    var q := EndFrom(f, p);
    if q < |f| && f[q] == '|' {
      OneMoreThanBars(f, q + 1, SeenFrom(f, p, seen).(groups := 0));
    }
  }

  /** The number reported is the alternative's position, except for the last one of a
      pattern without a closing NUL, which is given the number of bars. */
  lemma NumberIsPosition(f: Text, s: Text, start: nat)
    requires WellFormed(f, 0) && Matches(f, s, start)
    ensures var k, bars := Position(f, s, start), BarsFrom(f, 0);
            1 <= k <= bars + 1 &&
            Report(f, s, start).0 == if Terminated(f, 0) || k <= bars then k else bars
  {
    FirstMatchIsFirst(Alts(f, 0, NOTHING_SEEN), s, start, NO_CAPTURES);
    OneMoreThanBars(f, 0, NOTHING_SEEN);
  }

  /** A closing NUL makes the number right for every subject; and so does nothing else,
      if the last alternative is ever the one that matches. */
  lemma NumberAlwaysRight(f: Text)
    requires WellFormed(f, 0)
    ensures (forall s: Text, start: nat :: Matches(f, s, start) ==>
               Report(f, s, start).0 == Position(f, s, start))
            <==> Terminated(f, 0) ||
                 forall s: Text, start: nat :: Matches(f, s, start) ==> Position(f, s, start) <= BarsFrom(f, 0)
  {
    forall s: Text, start: nat | Matches(f, s, start)
      ensures Report(f, s, start).0 == Position(f, s, start)
              <==> Terminated(f, 0) || Position(f, s, start) <= BarsFrom(f, 0)
    {
      NumberIsPosition(f, s, start);
    }
  }

  /** The number 0 is to mean that nothing matched. Over all subjects it does if and
      only if the pattern has a closing NUL or a bar, or never matches. */
  lemma ZeroMeansNone(f: Text)
    requires WellFormed(f, 0)
    ensures (forall s: Text, start: nat :: Report(f, s, start).0 == 0 <==> !Matches(f, s, start))
            <==> Terminated(f, 0) || BarsFrom(f, 0) > 0 || forall s: Text, start: nat :: !Matches(f, s, start)
  {
    forall s: Text, start: nat
      ensures Report(f, s, start).0 == 0
              <==> !Matches(f, s, start) || (!Terminated(f, 0) && BarsFrom(f, 0) == 0)
    {
      if Matches(f, s, start) {
        NumberIsPosition(f, s, start);
      }
    }
  }

  /** `a` on "a" matches, and reports 0. */
  lemma NoBarReportsZero()
    ensures var f: Text, s: Text := ['a'], ['a'];
            WellFormed(f, 0) && Matches(f, s, 0) && Report(f, s, 0) == (0, 1, NO_CAPTURES)
  {
    var f: Text, s: Text, item := ['a'], ['a'], Atom(Single('a'), One);
    assert ItemAt(f, 0, NOTHING_SEEN) == item && After(f, 0) == 1;
    OneItem(f, s, 0, item);
    SingleHit('a', s, 0);
    MatchAtom(Single('a'), One, s, 0, 0, NO_CAPTURES);
    assert Items(f, 1, NOTHING_SEEN) == [] && Items(f, 0, NOTHING_SEEN) == [item];
  }

  /** `a|b` on "b" reports alternative 1 for alternative 2. */
  lemma LastReportsOneLess()
    ensures var f: Text, s: Text := ['a', '|', 'b'], ['b'];
            WellFormed(f, 0) && Matches(f, s, 0) && Position(f, s, 0) == 2 &&
            Report(f, s, 0) == (1, 1, NO_CAPTURES)
  {
    hide Alts, Terminated, WellFormed, FirstMatch, Single;
    OrText(['a', '|', 'b']);
    SecondMatches(['b']);
  }

  function OneAtom(c: Character): Alternative {
    Alternative([Atom(Single(c), One)])
  }

  lemma SecondMatches(s: Text)
    requires s == ['b']
    ensures FirstMatch([OneAtom('a'), OneAtom('b')], s, 0, NO_CAPTURES) == Found(Some((1, 1)), NO_CAPTURES)
  {
    SingleHit('a', s, 0);
    SingleHit('b', s, 0);
    hide Single;
    MatchAtom(Single('a'), One, s, 0, 0, NO_CAPTURES);
    MatchAtom(Single('b'), One, s, 0, 0, NO_CAPTURES);
    assert FirstMatch([OneAtom('b')], s, 0, NO_CAPTURES) == Found(Some((0, 1)), NO_CAPTURES);
    assert [OneAtom('a'), OneAtom('b')][1..] == [OneAtom('b')];
  }

  lemma OrText(f: Text)
    requires f == ['a', '|', 'b']
    ensures WellFormed(f, 0) && !Terminated(f, 0)
    ensures Alts(f, 0, NOTHING_SEEN) == [OneAtom('a'), OneAtom('b')]
  {
    var seen := NOTHING_SEEN;
    assert EndFrom(f, 3) == 3 && EndFrom(f, 1) == 1;
    assert After(f, 2) == 3 && After(f, 0) == 1;
    assert EndFrom(f, 2) == 3 && EndFrom(f, 0) == 1;
    assert Items(f, 3, seen) == [] && Items(f, 1, seen) == [];
    assert Items(f, 2, seen) == OneAtom('b').items && Items(f, 0, seen) == OneAtom('a').items;
    assert SeenFrom(f, 1, seen) == seen && SeenFrom(f, 0, seen) == seen;
    assert Alts(f, 2, seen) == [OneAtom('b')];
    assert Alts(f, 0, seen) == [OneAtom('a')] + [OneAtom('b')];
    assert !Terminated(f, 2) && !Terminated(f, 0);
    assert AltOk(f, 3, 1, true) && AltOk(f, 1, 1, true);
    assert ItemOk(f, 2, 1, true) && ItemOk(f, 0, 1, true);
    assert WellFormed(f, 2) && WellFormed(f, 0);
  }

  lemma SingleHit(c: Character, s: Text, i: nat)
    ensures Hit(Single(c), s, i) <==> i < |s| && s[i] != NUL && s[i] == c
  {
    assert Single(c).ranges[0] == Range(c, c);
  }
}
