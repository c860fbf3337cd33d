/** Which of the four captured texts a group of a simple pattern is kept in. */
module CapturedGroups {
  import opened Wrappers
  import opened Pattern
  import opened Matching
  import opened PatternFacts
  import opened RegTurn
  import opened RegRefine
  import opened SimplePatterns

  function GroupOf(c: Character, number: nat): Item {
    Group(number, [Alternative([Atom(Single(c), One)])], false)
  }

  /** A group of one character, and what it is counted as. */
  lemma IsGroupOf(f: Text, p: nat, seen: Seen)
    requires p + 2 < |f| && f[p] == '(' && Plain(f[p + 1]) && f[p + 2] == ')'
    requires p + 3 < |f| ==> f[p + 3] == '(' || AltEnd(f, p + 3)
    ensures IsItem(f, p, seen, GroupOf(f[p + 1], seen.groups + 1), p + 3, seen.(groups := seen.groups + 1))
  {
    var seen' := seen.(groups := seen.groups + 1);
    CharacterIn(f, p + 1, p + 2, seen');
    hide Items, EndFrom, AltOk, SeenFrom, Single;
    assert SeenGroup(f, p + 1, seen') == seen' && GroupEnd(f, p + 1) == p + 3 && GroupOk(f, p + 1, 2, true);
    assert GroupAlts(f, p + 1, seen') == [Alternative([Atom(Single(f[p + 1]), One)])];
    assert SkipBraces(f, p + 3) == p + 3;
  }

  lemma MatchGroupOf(c: Character, number: nat, s: Text, i: nat, start: nat, caps: Captures)
    requires Plain(c)
    ensures Match([GroupOf(c, number)], s, i, start, caps) ==
            if Has(s, i + 1, c) then Outcome(Some(i + 1), Capture(caps, number, [c])) else Outcome(None, caps)
  {
    var items := [Atom(Single(c), One)];
    SingleHit(c, s, i);
    assert i < |s| ==> Span(s, i, i + 1) == [s[i]];
    assert Clip([c]) == [c];
    hide Match, Choose, Single, Hit, Capture, Clip, Span;
    MatchGroup(number, [Alternative(items)], false, s, i, start, caps);
    assert [Alternative(items)] + [] == [Alternative(items)];
    ChooseFrom(items, [], number, s, i, start, caps);
    MatchAtom(Single(c), One, s, i, start, caps);
  }

  // ---- Groups one after the other ----

  /** The text of a group for each character of `cs`. */
  predicate Grouped(f: Text, cs: Text) {
    |f| == 3 * |cs| && forall k :: 0 <= k < |cs| ==> f[3 * k] == '(' && f[3 * k + 1] == cs[k] && f[3 * k + 2] == ')'
  }

  function GroupsFrom(cs: Text, k: nat): seq<Item>
    requires k <= |cs|
    decreases |cs| - k
  {
    if k == |cs| then [] else [GroupOf(cs[k], k + 1)] + GroupsFrom(cs, k + 1)
  }

  lemma {:induction false} GroupsParsed(f: Text, cs: Text, k: nat)
    requires Grouped(f, cs) && k <= |cs| && forall j :: 0 <= j < |cs| ==> Plain(cs[j])
    ensures Parses(f, 3 * k, Seen(false, k), GroupsFrom(cs, k))
    decreases |cs| - k
  {
    hide Parses, IsItem, GroupOf;
    if k == |cs| {
      ParsesEnd(f, Seen(false, k));
    } else {
      GroupsParsed(f, cs, k + 1);
      assert f[3 * k + 1] == cs[k];
      assert k + 1 < |cs| ==> f[3 * (k + 1)] == '(' && cs[k + 1] == cs[k + 1];
      IsGroupOf(f, 3 * k, Seen(false, k));
      ParsesMore(f, 3 * k, Seen(false, k), GroupOf(cs[k], k + 1), 3 * k + 3, Seen(false, k + 1),
                 GroupsFrom(cs, k + 1));
    }
  }

  lemma {:induction false} GroupsMatched(cs: Text, k: nat, s: Text, i: nat, start: nat, caps: Captures)
    requires k <= |cs| && forall j :: 0 <= j < |cs| ==> Plain(cs[j])
    requires i + |cs| - k <= |s| && s[i..i + |cs| - k] == cs[k..]
    ensures var r := Match(GroupsFrom(cs, k), s, i, start, caps);
            r.end == Some(i + |cs| - k) &&
            forall j :: 0 <= j < 4 ==> r.caps[j] == if k <= j < |cs| then Some([cs[j]]) else caps[j]
    decreases |cs| - k
  {
    if k == |cs| {
      MatchNothing(s, i, start, caps);
    } else {
      var caps' := Capture(caps, k + 1, [cs[k]]);
      assert s[i] == s[i..i + |cs| - k][0];
      assert s[i + 1..i + |cs| - k] == s[i..i + |cs| - k][1..];
      hide Match, GroupOf;
      MatchGroupOf(cs[k], k + 1, s, i, start, caps);
      MatchCons(GroupOf(cs[k], k + 1), GroupsFrom(cs, k + 1), s, i, start, caps);
      GroupsMatched(cs, k + 1, s, i + 1, start, caps');
    }
  }

  /** `(c)(d)…`, however many: where the subject goes on with those characters, the first
      four are captured, each by its group, and the others by none. */
  lemma GroupsCaptured(f: Text, cs: Text, s: Text, siIn: nat)
    requires Grouped(f, cs) && forall j :: 0 <= j < |cs| ==> Plain(cs[j])
    requires 1 <= siIn && siIn - 1 + |cs| <= |s| && s[siIn - 1..siIn - 1 + |cs|] == cs
    ensures var text := (j: nat) => if j < |cs| then Some([cs[j]]) else None;
            Reports(f, s, siIn, (0, siIn + |cs|, [text(0), text(1), text(2), text(3)]))
  {
    GroupsParsed(f, cs, 0);
    GroupsMatched(cs, 0, s, siIn - 1, siIn - 1, NO_CAPTURES);
    var r := Match(GroupsFrom(cs, 0), s, siIn - 1, siIn - 1, NO_CAPTURES);
    hide Reports, Parses, Match, GroupsFrom;
    var text := (j: nat) => if j < |cs| then Some([cs[j]]) else None;
    assert r.caps == [text(0), text(1), text(2), text(3)];
    Says(f, s, siIn, GroupsFrom(cs, 0));
  }

  // ---- Groups of two alternatives ----

  lemma ReadsGroup(f: Text, p: nat)
    requires p + 2 < |f| && f[p] == '(' && Plain(f[p + 1]) && f[p + 2] == ')' && AltEnd(f, p + 3)
    ensures Reads(f, p, [GroupOf(f[p + 1], 1)], p + 3)
  {
    IsGroupOf(f, p, NOTHING_SEEN);
    var seen := Seen(false, 1);
    assert EndFrom(f, p + 3) == p + 3 && Items(f, p + 3, seen) == [] && SeenFrom(f, p + 3, seen) == seen;
    assert AltOk(f, p + 3, 1, true);
    hide ItemAt, After, SeenBy, ItemOk, GroupOf;
  }

  /** `(c)|(d)` with a closing NUL: groups are counted anew in each alternative, so either
      character is the first text captured. */
  lemma CountedAnew(f: Text, c: Character, d: Character, s: Text, siIn: nat)
    requires f == ['(', c, ')', '|', '(', d, ')', '\0'] && Plain(c) && Plain(d) && siIn >= 1
    ensures Reports(f, s, siIn, if Has(s, siIn, c) then (1, siIn + 1, [Some([c]), None, None, None])
                                else if Has(s, siIn, d) then (2, siIn + 1, [Some([d]), None, None, None])
                                else (0, siIn, [None, None, None, None]))
  {
    ReadsGroup(f, 0);
    ReadsGroup(f, 4);
    MatchGroupOf(c, 1, s, siIn - 1, siIn - 1, NO_CAPTURES);
    MatchGroupOf(d, 1, s, siIn - 1, siIn - 1, NO_CAPTURES);
    FirstCapture([c]);
    FirstCapture([d]);
    assert Clip([c]) == [c] && Clip([d]) == [d];
    hide Reports, Reads, Match, GroupOf, Has, Capture, Clip;
    TwoAlternatives(f, s, siIn, [GroupOf(c, 1)], 3, [GroupOf(d, 1)], 7);
  }

  // ---- A group that may miss ----

  /** `(c)?d`: where `c` is missing the option lets `d` match all the same. */
  lemma OptionalGroup(f: Text, c: Character, d: Character, s: Text, siIn: nat)
    requires f == ['(', c, ')', '?', d] && Plain(c) && Plain(d) && siIn >= 1
    ensures Reports(f, s, siIn, if Has(s, siIn, c)
                                then (0, if Has(s, siIn + 1, d) then siIn + 2 else siIn, [Some([c]), None, None, None])
                                else (0, if Has(s, siIn, d) then siIn + 1 else siIn, [None, None, None, None]))
  {
    var x, y := Group(1, [Alternative([Atom(Single(c), One)])], true), Atom(Single(d), One);
    hide Reports, IsItem, Parses, Match, Single, Hit, Capture, VerdictOn;
    OptionalParsed(f, x, y);
    Says(f, s, siIn, [x] + [y]);
    MatchCons(x, [y], s, siIn - 1, siIn - 1, NO_CAPTURES);
    MatchOptionalGroup(c, s, siIn - 1);
    FirstCapture([c]);
    var e := if Has(s, siIn, c) then siIn else siIn - 1;
    var caps: Captures := if Has(s, siIn, c) then [Some([c]), None, None, None] else [None, None, None, None];
    assert Match([x], s, siIn - 1, siIn - 1, NO_CAPTURES) == Outcome(Some(e), caps);
    MatchAtom(Single(d), One, s, e, siIn - 1, caps);
    SingleHit(d, s, e);
    VerdictIs(siIn, if Has(s, e + 1, d) then Some(e + 1) else None, caps);
  }

  lemma VerdictIs(siIn: nat, end: Option<nat>, caps: Captures)
    ensures VerdictOn(siIn, Outcome(end, caps)) == (0, if end.None? then siIn else end.value + 1, caps)
  {}

  lemma OptionalParsed(f: Text, x: Item, y: Item)
    requires |f| == 5 && f[0] == '(' && Plain(f[1]) && f[2] == ')' && f[3] == '?' && Plain(f[4])
    requires x == Group(1, [Alternative([Atom(Single(f[1]), One)])], true) && y == Atom(Single(f[4]), One)
    ensures Parses(f, 0, NOTHING_SEEN, [x] + [y])
  {
    IsOptionalGroup(f);
    IsChar(f, 4, Seen(false, 1));
    hide IsItem, Parses, Single;
    ParsesEnd(f, Seen(false, 1));
    ParsesMore(f, 4, Seen(false, 1), y, 5, Seen(false, 1), []);
    assert [y] + [] == [y];
    ParsesMore(f, 0, NOTHING_SEEN, x, 4, Seen(false, 1), [y]);
  }

  lemma IsOptionalGroup(f: Text)
    requires |f| == 5 && f[0] == '(' && Plain(f[1]) && f[2] == ')' && f[3] == '?' && Plain(f[4])
    ensures IsItem(f, 0, NOTHING_SEEN, Group(1, [Alternative([Atom(Single(f[1]), One)])], true), 4, Seen(false, 1))
  {
    var seen := Seen(false, 1);
    CharacterIn(f, 1, 2, seen);
    hide Items, EndFrom, AltOk, SeenFrom, Single;
    assert SeenGroup(f, 1, seen) == seen && GroupEnd(f, 1) == 3 && GroupOk(f, 1, 2, true);
    assert GroupAlts(f, 1, seen) == [Alternative([Atom(Single(f[1]), One)])];
    assert SkipBraces(f, 3) == 3;
  }

  lemma MatchOptionalGroup(c: Character, s: Text, i: nat)
    requires Plain(c)
    ensures Match([Group(1, [Alternative([Atom(Single(c), One)])], true)], s, i, i, NO_CAPTURES) ==
            if Has(s, i + 1, c) then Outcome(Some(i + 1), Capture(NO_CAPTURES, 1, [c]))
            else Outcome(Some(i), NO_CAPTURES)
  {
    var alts := [Alternative([Atom(Single(c), One)])];
    MatchGroupOf(c, 1, s, i, i, NO_CAPTURES);
    hide Match, Choose, Capture, Has, Single;
    MatchGroup(1, alts, false, s, i, i, NO_CAPTURES);
    MatchGroup(1, alts, true, s, i, i, NO_CAPTURES);
  }

  // ---- Groups inside groups ----

  /** The text of `n` groups, each in the one before, round one character. */
  predicate Nested(f: Text, n: nat, c: Character) {
    |f| == 2 * n + 1 && f[n] == c &&
    (forall k :: 0 <= k < n ==> f[k] == '(') && forall k :: n < k < |f| ==> f[k] == ')'
  }

  function Nest(n: nat, c: Character, k: nat): Item
    requires k <= n
    decreases n - k
  {
    if k == n then Atom(Single(c), One) else Group(k + 1, [Alternative([Nest(n, c, k + 1)])], false)
  }

  lemma {:induction false} NestRead(f: Text, n: nat, c: Character, k: nat)
    requires Nested(f, n, c) && Plain(c) && k <= n <= 13
    ensures var seen := Seen(false, k);
            EndFrom(f, k) == 2 * n + 1 - k && Items(f, k, seen) == [Nest(n, c, k)] &&
            AltOk(f, k, k + 1, true) && SeenFrom(f, k, seen) == Seen(false, n)
    decreases n - k
  {
    var seen, e := Seen(false, k), 2 * n + 1 - k;
    assert AltEnd(f, e) && EndFrom(f, e) == e && AltOk(f, e, k + 1, true);
    assert Items(f, e, Seen(false, n)) == [] && SeenFrom(f, e, Seen(false, n)) == Seen(false, n);
    if k == n {
      assert SuffixAt(f, n) == n + 1 && After(f, n) == n + 1 && SeenBy(f, n, seen) == seen;
      assert ItemAt(f, n, seen) == Nest(n, c, n);
    } else {
      NestRead(f, n, c, k + 1);
      GroupRead(f, n, c, k);
    }
    hide ItemAt, After, SeenBy, Nest;
    assert Items(f, k, seen) == [Nest(n, c, k)] + Items(f, e, Seen(false, n));
  }

  lemma GroupRead(f: Text, n: nat, c: Character, k: nat)
    requires Nested(f, n, c) && k < n <= 13
    requires var seen := Seen(false, k + 1);
             EndFrom(f, k + 1) == 2 * n - k && Items(f, k + 1, seen) == [Nest(n, c, k + 1)] &&
             AltOk(f, k + 1, k + 2, true) && SeenFrom(f, k + 1, seen) == Seen(false, n)
    ensures var seen := Seen(false, k);
            !AltEnd(f, k) && ItemOk(f, k, k + 1, true) && After(f, k) == 2 * n + 1 - k &&
            ItemAt(f, k, seen) == Nest(n, c, k) && SeenBy(f, k, seen) == Seen(false, n)
  {
    hide Items, EndFrom, AltOk, SeenFrom;
    var seen := Seen(false, k + 1);
    assert SeenGroup(f, k + 1, seen) == Seen(false, n) && GroupEnd(f, k + 1) == 2 * n + 1 - k;
    assert GroupOk(f, k + 1, k + 2, true);
    assert GroupAlts(f, k + 1, seen) == [Alternative([Nest(n, c, k + 1)])];
    assert SkipBraces(f, 2 * n + 1 - k) == 2 * n + 1 - k;
  }

  lemma {:induction false} NestMatched(n: nat, c: Character, k: nat, s: Text, i: nat, caps: Captures)
    requires k <= n && Plain(c)
    ensures var r := Match([Nest(n, c, k)], s, i, i, caps);
            if !Has(s, i + 1, c) then r == Outcome(None, caps)
            else r.end == Some(i + 1) &&
                 forall j :: 0 <= j < 4 ==> r.caps[j] == if k <= j < n then Some([c]) else caps[j]
    decreases n - k
  {
    SingleHit(c, s, i);
    if k == n {
      MatchAtom(Single(c), One, s, i, i, caps);
    } else {
      var inner := [Nest(n, c, k + 1)];
      assert Nest(n, c, k) == Group(k + 1, [Alternative(inner)], false);
      assert i < |s| ==> Span(s, i, i + 1) == [s[i]];
      assert Clip([c]) == [c];
      hide Match, Choose, Hit, Nest, Span, Clip;
      NestMatched(n, c, k + 1, s, i, caps);
      MatchGroup(k + 1, [Alternative(inner)], false, s, i, i, caps);
      assert [Alternative(inner)] + [] == [Alternative(inner)];
      ChooseFrom(inner, [], k + 1, s, i, i, caps);
    }
  }

  /** Up to thirteen groups may be nested, and the outer four capture the character. */
  lemma NestedCaptured(f: Text, n: nat, c: Character, s: Text, siIn: nat)
    requires Nested(f, n, c) && Plain(c) && siIn >= 1 && n <= 13
    ensures var text := (j: nat) => if Has(s, siIn, c) && j < n then Some([c]) else None;
            Reports(f, s, siIn, (0, if Has(s, siIn, c) then siIn + 1 else siIn, [text(0), text(1), text(2), text(3)]))
  {
    NestRead(f, n, c, 0);
    NestMatched(n, c, 0, s, siIn - 1, NO_CAPTURES);
    var r := Match([Nest(n, c, 0)], s, siIn - 1, siIn - 1, NO_CAPTURES);
    assert Parses(f, 0, NOTHING_SEEN, [Nest(n, c, 0)]);
    hide Reports, Parses, Match, Nest;
    var text := (j: nat) => if Has(s, siIn, c) && j < n then Some([c]) else None;
    assert r.caps == [text(0), text(1), text(2), text(3)];
    Says(f, s, siIn, [Nest(n, c, 0)]);
  }

  lemma {:induction false} Opened(f: Text, n: nat, c: Character, s: Text, siIn: nat, k: nat) returns (x: Cfg)
    requires Nested(f, n, c) && siIn >= 1 && k <= n && k <= 14
    ensures Turns(f, s, siIn, Start(siIn), k) == Going(x)
    ensures x.fi == k && x.sp == k + 1 && x.m == 1 && x.si == siIn
  {
    if k == 0 {
      x := Start(siIn);
    } else {
      var y := Opened(f, n, c, s, siIn, k - 1);
      assert f[k - 1] == '(';
      TurnsAdd(f, s, siIn, Start(siIn), k - 1, 1);
      SingleTurn(f, s, siIn, y);
      hide Turns;
      x := Turn(f, s, siIn, y).x;
    }
  }

  /** So a pattern of nested groups ends on every subject, or, with more than thirteen, stops
      the simulation on every subject: the stacks have fifteen places. */
  lemma NestingLimit(f: Text, n: nat, c: Character, s: Text, siIn: nat)
    requires Nested(f, n, c) && Plain(c) && siIn >= 1
    ensures Ends(f, s, siIn) <==> n <= 13
  {
    hide Turns, Turn, Ends, Reports;
    if n <= 13 {
      var text := (j: nat) => if Has(s, siIn, c) && j < n then Some([c]) else None;
      NestedCaptured(f, n, c, s, siIn);
      ReportsEnds(f, s, siIn, (0, if Has(s, siIn, c) then siIn + 1 else siIn, [text(0), text(1), text(2), text(3)]));
    } else {
      var x := Opened(f, n, c, s, siIn, 14);
      assert f[14] == if n == 14 then c else '(';
      NoPlace(f, s, siIn, x);
      TurnsAdd(f, s, siIn, Start(siIn), 14, 1);
      SingleTurn(f, s, siIn, x);
      FaultNeverEnds(f, s, siIn, 15);
    }
  }

  lemma ReportsEnds(f: Text, s: Text, siIn: nat, v: Verdict)
    requires Reports(f, s, siIn, v)
    ensures Ends(f, s, siIn)
  {}

  lemma NoPlace(f: Text, s: Text, siIn: nat, x: Cfg)
    requires x.fi == 14 < |f| && x.sp == 15 && x.m == 1 && (f[14] == '(' || Plain(f[14]))
    ensures Turn(f, s, siIn, x).Fault?
  {}
}
