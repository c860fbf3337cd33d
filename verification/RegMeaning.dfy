/** What follows from the meaning of a pattern: matching item by item, and what a
    reader may rely on. */
module Matching {
  import opened Wrappers
  import opened Pattern

  /** Matching items one after the other. */
  lemma {:induction false} MatchCons(item: Item, rest: seq<Item>, s: Text, i: nat, start: nat, caps: Captures)
    ensures Match([item] + rest, s, i, start, caps) ==
            var r := Match([item], s, i, start, caps);
            if r.end.None? then r else Match(rest, s, r.end.value, start, r.caps)
    decreases Left(s, i)
  {
    var items := [item] + rest;
    assert items[0] == item && items[1..] == rest;
    assert [item][0] == item && [item][1..] == [];
    if item.Atom? && item.repeat.Star? && Hit(item.cls, s, i) {
      var again := Atom(item.repeat.again, item.repeat);
      MatchCons(again, rest, s, i + 1, start, caps);
      assert [again] + [] == [again];
    }
  }

  /** Where a starred atom ends, its repetition being another class. */
  function StarEnd(cls: Class, again: Class, s: Text, i: nat): nat {
    if Hit(cls, s, i) then RunEnd(again, s, i + 1) else i
  }

  lemma {:induction false} MatchStar(cls: Class, again: Class, s: Text, i: nat, start: nat, caps: Captures)
    ensures Match([Atom(cls, Star(again))], s, i, start, caps) == Outcome(Some(StarEnd(cls, again, s, i)), caps)
    decreases Left(s, i)
  {
    var items := [Atom(cls, Star(again))];
    assert items[0] == Atom(cls, Star(again)) && items[1..] == [];
    assert Match([], s, i, start, caps) == Outcome(Some(i), caps);
    if Hit(cls, s, i) {
      MatchStar(again, again, s, i + 1, start, caps);
      assert [Atom(again, Star(again))] + [] == [Atom(again, Star(again))];
    }
  }

  /** A match passes over no NUL and stays in the subject. */
  lemma {:induction false} MatchSpan(items: seq<Item>, s: Text, i: nat, start: nat, caps: Captures)
    ensures match Match(items, s, i, start, caps).end
            case None => true
            case Some(e) => i <= e && (e <= |s| || e == i) && forall k :: i <= k < e ==> s[k] != NUL
    decreases Left(s, i), items
  {
    if items == [] {
    } else {
      var rest := items[1..];
      match items[0]
      case Atom(cls, repeat) =>
        if Hit(cls, s, i) {
          MatchSpan(if repeat.Star? then [Atom(repeat.again, repeat)] + rest else rest, s, i + 1, start, caps);
        } else {
          MatchSpan(rest, s, i, start, caps);
        }
      case Group(number, alts, optional) =>
        ChooseSpan(alts, number, s, i, start, caps);
        var r := Choose(alts, number, s, i, start, caps);
        MatchSpan(rest, s, if r.end.Some? then r.end.value else i, start, r.caps);
      case _ => MatchSpan(rest, s, i, start, caps);
    }
  }

  lemma {:induction false} ChooseSpan(alts: seq<Alternative>, number: nat, s: Text, i: nat, start: nat, caps: Captures)
    ensures match Choose(alts, number, s, i, start, caps).end
            case None => true
            case Some(e) => i <= e && (e <= |s| || e == i) && forall k :: i <= k < e ==> s[k] != NUL
    decreases Left(s, i), alts
  {
    if alts == [] {
    } else {
      MatchSpan(alts[0].items, s, i, start, caps);
      ChooseSpan(alts[1..], number, s, i, start, Match(alts[0].items, s, i, start, caps).caps);
    }
  }

  lemma MatchMark(item: Item, s: Text, i: nat, start: nat, caps: Captures)
    requires !item.Atom? && !item.Group?
    ensures var fails := match item
                         case LineStart => i != start
                         case LineEnd => !AtEnd(s, i)
                         case _ => false;
            Match([item], s, i, start, caps) == Outcome(if fails then None else Some(i), caps)
  {
    assert [item][0] == item && [item][1..] == [];
  }

  lemma MatchAtom(cls: Class, repeat: Repeat, s: Text, i: nat, start: nat, caps: Captures)
    requires !repeat.Star?
    ensures var hit := Hit(cls, s, i);
            Match([Atom(cls, repeat)], s, i, start, caps) ==
            Outcome(if hit then Some(i + 1) else if repeat.Optional? then Some(i) else None, caps)
  {
    var item := Atom(cls, repeat);
    assert [item][0] == item && [item][1..] == [];
  }

  lemma ChooseFrom(first: seq<Item>, rest: seq<Alternative>, number: nat, s: Text, i: nat, start: nat, caps: Captures)
    ensures Choose([Alternative(first)] + rest, number, s, i, start, caps) ==
            var r := Match(first, s, i, start, caps);
            match r.end
            case Some(e) => Outcome(Some(e), Capture(r.caps, number, Clip(Span(s, i, e))))
            case None => if rest == [] then Outcome(None, r.caps) else Choose(rest, number, s, i, start, r.caps)
  {
    var alts := [Alternative(first)] + rest;
    assert alts[0] == Alternative(first) && alts[1..] == rest;
  }

  lemma MatchGroup(number: nat, alts: seq<Alternative>, optional: bool, s: Text, i: nat, start: nat, caps: Captures)
    ensures var r := Choose(alts, number, s, i, start, caps);
            Match([Group(number, alts, optional)], s, i, start, caps) ==
            if r.end.None? && optional then Outcome(Some(i), r.caps) else r
  {
    var item := Group(number, alts, optional);
    assert [item][0] == item && [item][1..] == [];
    var r := Choose(alts, number, s, i, start, caps);
    var e := if r.end.Some? then r.end.value else i;
    assert Match([], s, e, start, r.caps) == Outcome(Some(e), r.caps);
  }

  lemma MatchNothing(s: Text, i: nat, start: nat, caps: Captures)
    ensures Match([], s, i, start, caps) == Outcome(Some(i), caps)
  {}

  // ---- What a reader may rely on ----

  /** Trying the alternatives before number `k` captures texts and matches nothing. */
  function TriedBefore(alts: seq<Alternative>, k: nat, s: Text, start: nat, caps: Captures): Captures
    requires k <= |alts|
  {
    if k == 0 then caps else Match(alts[k - 1].items, s, start, start, TriedBefore(alts, k - 1, s, start, caps)).caps
  }

  lemma {:induction false} TriedShift(alts: seq<Alternative>, k: nat, s: Text, start: nat, caps: Captures)
    requires k < |alts|
    ensures TriedBefore(alts, k + 1, s, start, caps) ==
            TriedBefore(alts[1..], k, s, start, Match(alts[0].items, s, start, start, caps).caps)
  {
    if k == 0 {
      assert TriedBefore(alts, 0, s, start, caps) == caps;
    } else {
      TriedShift(alts, k - 1, s, start, caps);
      assert alts[1..][k - 1] == alts[k];
    }
  }

  /** The outcome of alternative `k`, those before it having been tried. */
  function Attempt(alts: seq<Alternative>, k: nat, s: Text, start: nat, caps: Captures): Outcome
    requires k < |alts|
  {
    Match(alts[k].items, s, start, start, TriedBefore(alts, k, s, start, caps))
  }

  /** The alternative reported matches, and none before it does; with no report,
      none does. The captures are those of all that have been tried. */
  lemma {:induction false} FirstMatchIsFirst(alts: seq<Alternative>, s: Text, start: nat, caps: Captures)
    ensures var r := FirstMatch(alts, s, start, caps);
            match r.at
            case Some((k, e)) =>
              k < |alts| && Attempt(alts, k, s, start, caps) == Outcome(Some(e), r.caps) &&
              forall j :: 0 <= j < k ==> Attempt(alts, j, s, start, caps).end == None
            case None =>
              r.caps == TriedBefore(alts, |alts|, s, start, caps) &&
              forall j :: 0 <= j < |alts| ==> Attempt(alts, j, s, start, caps).end == None
  {
    if alts == [] {
    } else {
      var first := Match(alts[0].items, s, start, start, caps);
      assert Attempt(alts, 0, s, start, caps) == first;
      if first.end == None {
        FirstMatchIsFirst(alts[1..], s, start, first.caps);
        forall j | 0 <= j < |alts| - 1
          ensures Attempt(alts, j + 1, s, start, caps) == Attempt(alts[1..], j, s, start, first.caps)
        {
          TriedShift(alts, j, s, start, caps);
          assert alts[1..][j] == alts[j + 1];
        }
        TriedShift(alts, |alts| - 1, s, start, caps);
        assert forall j :: 0 < j < |alts| ==>
            Attempt(alts, j, s, start, caps) == Attempt(alts[1..], j - 1, s, start, first.caps);
      }
    }
  }

  /** Possession: `*` takes the longest run and gives nothing back. */
  lemma StarTakesAll(cls: Class, rest: seq<Item>, s: Text, i: nat, start: nat, caps: Captures)
    ensures Match([Atom(cls, Star(cls))] + rest, s, i, start, caps) ==
            Match(rest, s, RunEnd(cls, s, i), start, caps)
  {
    MatchCons(Atom(cls, Star(cls)), rest, s, i, start, caps);
    MatchStar(cls, cls, s, i, start, caps);
  }

  /** So `.*` followed by anything that takes a character never matches. */
  lemma AnyStarThenAtom(cls: Class, rest: seq<Item>, s: Text, i: nat, start: nat, caps: Captures)
    ensures Match([Atom(ANY, Star(ANY)), Atom(cls, One)] + rest, s, i, start, caps) == Outcome(None, caps)
  {
    var items := [Atom(cls, One)] + rest;
    assert [Atom(ANY, Star(ANY)), Atom(cls, One)] + rest == [Atom(ANY, Star(ANY))] + items;
    StarTakesAll(ANY, items, s, i, start, caps);
    var e := RunEnd(ANY, s, i);
    assert !Listed([], if e < |s| then s[e] else NUL);
    assert items[0] == Atom(cls, One);
  }

  /** A group takes the first of its alternatives that matches, and keeps it: nothing
      that follows makes it try another. */
  lemma GroupPossesses(number: nat, alts: seq<Alternative>, optional: bool, rest: seq<Item>, s: Text, i: nat,
                       start: nat, caps: Captures)
    requires alts != [] && Match(alts[0].items, s, i, start, caps).end.Some?
    ensures var r := Match(alts[0].items, s, i, start, caps);
            Match([Group(number, alts, optional)] + rest, s, i, start, caps) ==
            Match(rest, s, r.end.value, start, Capture(r.caps, number, Clip(Span(s, i, r.end.value))))
  {
    MatchCons(Group(number, alts, optional), rest, s, i, start, caps);
    MatchGroup(number, alts, optional, s, i, start, caps);
  }
}
