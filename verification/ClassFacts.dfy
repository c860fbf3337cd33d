/** What a bracket class means against what the comments of regexp_h.vhdl say: that a
    hyphen listed first or last, as in `[-9]`, `[9-]` or `[---]`, stands for itself. */
module ClassFacts {
  import opened Wrappers
  import opened Pattern
  import opened Matching
  import opened PatternFacts

  /** Where the list of a class begins. */
  function Body(f: Text, p: nat): nat {
    if Negated(f, p) then p + 2 else p + 1
  }

  /** A hyphen just before the closing bracket. */
  predicate Closing(f: Text, p: nat) {
    p + 1 < |f| && f[p] == '-' && f[p + 1] == ']'
  }

  /** A range that ends in the closing hyphen lists the hyphen in any case. */
  function ToHyphen(lo: Character): Range {
    if lo <= '-' then Range(lo, '-') else Range('-', '-')
  }

  /** The list as promised, from `p` on: read as the code reads it, but for a closing
      hyphen that ends a range. */
  function PromisedFrom(f: Text, p: nat, first: bool, previous: Character): (r: Scanned)
    ensures r.end >= p || r.end == |f|
    decreases |f| - p
  {
    if p >= |f| then Scanned([], |f|) else
    var c := f[p];
    if c == '\\' then
      if p + 1 >= |f| then Scanned([], |f|)
      else PromisedFrom(f, p + 2, false, c).Prepend(Range(Escaped(f[p + 1]), Escaped(f[p + 1])))
    else if c == ']' && !first then Scanned([], p)
    else if c == '-' then
      if p + 1 >= |f| then Scanned([], |f|)
      else if f[p + 1] == ']' then PromisedFrom(f, p + 1, false, c).Prepend(Range(c, c))
      else
        PromisedFrom(f, p + 2, false, c).Prepend(if Closing(f, p + 1) then ToHyphen(previous)
                                                 else Range(previous, f[p + 1]))
    else PromisedFrom(f, p + 1, false, c).Prepend(Range(c, c))
  }

  /** The class as promised: a hyphen listed first is an ordinary character too. */
  function Promised(f: Text, p: nat): Scanned {
    var b := Body(f, p);
    if b + 1 < |f| && f[b] == '-' then PromisedFrom(f, b + 1, false, '-').Prepend(Range('-', '-'))
    else PromisedFrom(f, b, true, if Negated(f, p) then '^' else NUL)
  }

  /** It does list a hyphen that is first or last. */
  lemma HyphenPromised(f: Text, p: nat)
    requires Body(f, p) < Promised(f, p).end < |f|
    requires f[Body(f, p)] == '-' || f[Promised(f, p).end - 1] == '-'
    ensures Listed(Promised(f, p).ranges, '-')
  {
    var b, r := Body(f, p), Promised(f, p);
    if f[b] == '-' {
      assert r.ranges[0] == Range('-', '-');
    } else {
      ClosingListed(f, b, true, if Negated(f, p) then '^' else NUL);
    }
  }

  lemma {:induction false} ClosingListed(f: Text, p: nat, first: bool, previous: Character)
    requires var e := PromisedFrom(f, p, first, previous).end; p < e < |f| && f[e - 1] == '-'
    ensures Listed(PromisedFrom(f, p, first, previous).ranges, '-')
    decreases |f| - p
  {
    var r, c := PromisedFrom(f, p, first, previous), f[p];
    var next := if c == '\\' || (c == '-' && f[p + 1] != ']') then p + 2 else p + 1;
    var rest := PromisedFrom(f, next, false, c);
    assert r == rest.Prepend(r.ranges[0]);
    if rest.end == next {
      assert r.ranges[0].lo <= '-' <= r.ranges[0].hi;
    } else {
      ClosingListed(f, next, false, c);
      ListedCons(r.ranges[0], rest.ranges, '-');
    }
  }

  lemma ListedCons(r: Range, ranges: seq<Range>, c: Character)
    ensures Listed([r] + ranges, c) <==> r.lo <= c <= r.hi || Listed(ranges, c)
  {
    var all := [r] + ranges;
    assert all[0] == r;
    if Listed(ranges, c) {
      var k :| 0 <= k < |ranges| && ranges[k].lo <= c <= ranges[k].hi;
      assert all[k + 1] == ranges[k];
    }
    if Listed(all, c) {
      var k :| 0 <= k < |all| && all[k].lo <= c <= all[k].hi;
      assert k > 0 ==> ranges[k - 1] == all[k];
    }
  }

  // ---- The two ways the promise is not kept ----

  /** The class begins with a hyphen that is not also its last character. */
  predicate LeadingHyphen(f: Text, p: nat) {
    var b := Body(f, p);
    b + 1 < |f| && f[b] == '-' && f[b + 1] != ']'
  }

  /** From `p` on, the closing hyphen ends a range that starts above it. */
  predicate LostFrom(f: Text, p: nat, first: bool, previous: Character)
    decreases |f| - p
  {
    if p >= |f| then false else
    var c := f[p];
    if c == '\\' then LostFrom(f, p + 2, false, c)
    else if c == ']' && !first then false
    else if c == '-' && p + 1 < |f| && f[p + 1] != ']' then
      if Closing(f, p + 1) then previous > '-' else LostFrom(f, p + 2, false, c)
    else LostFrom(f, p + 1, false, c)
  }

  predicate ClosingHyphenLost(f: Text, p: nat) {
    var b := Body(f, p);
    if b + 1 < |f| && f[b] == '-' then LostFrom(f, b + 1, false, '-')
    else LostFrom(f, b, true, if Negated(f, p) then '^' else NUL)
  }

  /** The list is read as promised unless the closing hyphen is lost, and then nothing
      but the hyphen is missing. */
  lemma {:induction false} ReadAsPromised(f: Text, p: nat, first: bool, previous: Character)
    ensures var code, promised := Scan(f, p, first, previous), PromisedFrom(f, p, first, previous);
            var lost := LostFrom(f, p, first, previous);
            (code == promised <==> !lost) &&
            forall c: Character :: Listed(promised.ranges, c) <==> Listed(code.ranges, c) || (c == '-' && lost)
    decreases |f| - p
  {
    if p >= |f| || (f[p] == ']' && !first) || (p + 1 >= |f| && (f[p] == '\\' || f[p] == '-')) {
      assert LostFrom(f, |f| + 1, false, '\\') == false;
    } else {
      var c := f[p];
      var next := if c == '\\' || (c == '-' && f[p + 1] != ']') then p + 2 else p + 1;
      ReadAsPromised(f, next, false, c);
      var code, promised := Scan(f, p, first, previous), PromisedFrom(f, p, first, previous);
      var code', promised' := Scan(f, next, false, c), PromisedFrom(f, next, false, c);
      assert code == code'.Prepend(code.ranges[0]) && promised == promised'.Prepend(promised.ranges[0]);
      assert code.ranges[1..] == code'.ranges && promised.ranges[1..] == promised'.ranges;
      forall d: Character
        ensures Listed(code.ranges, d) <==> code.ranges[0].lo <= d <= code.ranges[0].hi || Listed(code'.ranges, d)
        ensures Listed(promised.ranges, d) <==>
                promised.ranges[0].lo <= d <= promised.ranges[0].hi || Listed(promised'.ranges, d)
      {
        ListedCons(code.ranges[0], code'.ranges, d);
        ListedCons(promised.ranges[0], promised'.ranges, d);
      }
      if c == '-' && Closing(f, p + 1) {
        assert code' == Scanned([], p + 2) && promised' == Scanned([], p + 2);
      }
    }
  }

  /** What a class that does not begin with a hyphen starts a range from does not
      matter. */
  lemma PreviousIrrelevant(f: Text, p: nat, c: Character, d: Character)
    requires p >= |f| || f[p] != '-' || p + 1 >= |f| || f[p + 1] == ']'
    ensures Scan(f, p, true, c) == Scan(f, p, true, d)
  {}

  /** A class lists what is promised, range by range, if and only if it does not begin
      with such a hyphen and does not lose one at its end, whether or not a class has
      been read before it. */
  lemma ListedAsPromised(f: Text, p: nat, read: bool)
    ensures ScanClass(f, p, Previous(read)) == Promised(f, p) <==> !LeadingHyphen(f, p) && !ClosingHyphenLost(f, p)
  {
    var b := Body(f, p);
    var from := if Negated(f, p) then '^' else Previous(read);
    if LeadingHyphen(f, p) {
      var code := Scan(f, b + 2, false, '-').Prepend(Range(from, f[b + 1]));
      assert ScanClass(f, p, Previous(read)) == code;
      assert code.ranges[0] != Promised(f, p).ranges[0];
    } else {
      KeptOtherwise(f, p, read);
    }
  }

  lemma KeptOtherwise(f: Text, p: nat, read: bool)
    requires !LeadingHyphen(f, p)
    ensures ScanClass(f, p, Previous(read)) == Promised(f, p) <==> !ClosingHyphenLost(f, p)
    ensures forall c: Character ::
              Listed(Promised(f, p).ranges, c) <==>
              Listed(ScanClass(f, p, Previous(read)).ranges, c) || (c == '-' && ClosingHyphenLost(f, p))
  {
    var b := Body(f, p);
    var from: Character := if Negated(f, p) then '^' else NUL;
    PreviousIrrelevant(f, b, if Negated(f, p) then '^' else Previous(read), from);
    ReadAsPromised(f, b, true, from);
    if b + 1 < |f| && f[b] == '-' {
      assert Scan(f, b + 1, false, '-') == Scanned([], b + 1);
      assert PromisedFrom(f, b + 1, false, '-') == Scanned([], b + 1);
    }
  }

  /** The class matches the characters promised. */
  ghost predicate MeansPromised(f: Text, p: nat, read: bool) {
    forall c: Character :: c != NUL ==>
      In(ClassAt(f, p, read), c) == In(Class(Negated(f, p), Promised(f, p).ranges), c)
  }

  /** So a class that does not begin with such a hyphen matches what is promised unless
      it loses its closing hyphen and lists none elsewhere. */
  lemma ClosingDecides(f: Text, p: nat, read: bool)
    requires !LeadingHyphen(f, p)
    ensures MeansPromised(f, p, read) <==>
            !ClosingHyphenLost(f, p) || Listed(ClassAt(f, p, read).ranges, '-')
  {
    KeptOtherwise(f, p, read);
    hide Scan, PromisedFrom, LostFrom, Promised, ScanClass, Listed;
    var hyphen: Character := '-';
    assert In(ClassAt(f, p, read), hyphen) == (Listed(ClassAt(f, p, read).ranges, hyphen) != Negated(f, p));
  }

  /** What follows the class's first two characters is the same up to there. */
  predicate SameOpening(f: Text, g: Text, p: nat) {
    var k := Body(f, p) + 2;
    |g| >= k && |f| >= k && g[..k] == f[..k]
  }

  /** The first two characters of a class decide the rest: it matches what is promised,
      however it goes on short of losing its closing hyphen, if and only if they are
      not a hyphen and something else than a closing bracket. (Later characters may
      happen to list what the hyphen was to: `[-00-]`, read after another class, is
      one.) */
  lemma OpeningDecides(f: Text, p: nat, read: bool)
    requires Body(f, p) + 1 < |f|
    ensures (forall g: Text :: SameOpening(f, g, p) && !ClosingHyphenLost(g, p) ==> MeansPromised(g, p, read))
            <==> !LeadingHyphen(f, p)
  {
    if LeadingHyphen(f, p) {
      var k := Body(f, p) + 2;
      var g: Text := f[..k] + [']'];
      assert g[..k] == f[..k];
      ClosedAtOnce(f, g, p, read);
    } else {
      forall g: Text | SameOpening(f, g, p) && !ClosingHyphenLost(g, p)
        ensures MeansPromised(g, p, read)
      {
        SameBody(f, g, p);
        ClosingDecides(g, p, read);
      }
    }
  }

  lemma SameBody(f: Text, g: Text, p: nat)
    requires SameOpening(f, g, p)
    ensures Body(g, p) == Body(f, p) && LeadingHyphen(g, p) == LeadingHyphen(f, p)
  {
    var k := Body(f, p) + 2;
    forall i | 0 <= i < k
      ensures g[i] == f[i]
    {
      assert g[..k][i] == f[..k][i];
    }
  }

  /** `[-x]` and `[^-x]` are a range, and miss the hyphen or list too much. */
  lemma ClosedAtOnce(f: Text, g: Text, p: nat, read: bool)
    requires LeadingHyphen(f, p) && SameOpening(f, g, p)
    requires g == f[..Body(f, p) + 2] + [']']
    ensures !ClosingHyphenLost(g, p) && !MeansPromised(g, p, read)
  {
    SameBody(f, g, p);
    var b := Body(g, p);
    var from, x := if Negated(g, p) then '^' else Previous(read), g[b + 1];
    ListsRange(g, p, read);
    PromisesHyphen(g, p);
    var one: Character := 1 as char;
    var c := if from <= '-' <= x then one else '-';
    ListedAlone(Range(from, x), c);
    hide Scan, Listed;
    assert In(ClassAt(g, p, read), c) != In(Class(Negated(g, p), Promised(g, p).ranges), c);
  }

  lemma ListsRange(g: Text, p: nat, read: bool)
    requires LeadingHyphen(g, p) && |g| == Body(g, p) + 3 && g[|g| - 1] == ']'
    ensures var from := if Negated(g, p) then '^' else Previous(read);
            ClassAt(g, p, read) == Class(Negated(g, p), [Range(from, g[Body(g, p) + 1])])
  {
    var b := Body(g, p);
    assert Scan(g, b + 2, false, '-') == Scanned([], b + 2);
  }

  lemma PromisesHyphen(g: Text, p: nat)
    requires LeadingHyphen(g, p) && |g| == Body(g, p) + 3 && g[|g| - 1] == ']'
    ensures var ranges := Promised(g, p).ranges;
            Listed(ranges, '-') && (g[Body(g, p) + 1] != 1 as char ==> !Listed(ranges, 1 as char)) &&
            !ClosingHyphenLost(g, p)
  {
    var b := Body(g, p);
    var x, ranges := g[b + 1], Promised(g, p).ranges;
    assert ranges[0] == Range('-', '-');
    assert PromisedFrom(g, b + 2, false, x) == Scanned([], b + 2) && !LostFrom(g, b + 2, false, x);
    if x == '\\' {
      assert PromisedFrom(g, b + 1, false, '-') == PromisedFrom(g, b + 3, false, '\\').Prepend(Range(']', ']'));
      assert !LostFrom(g, b + 3, false, '\\');
    } else {
      assert PromisedFrom(g, b + 1, false, '-') == Scanned([Range(x, x)], b + 2);
    }
  }

  lemma ListedAlone(r: Range, c: Character)
    ensures Listed([r], c) <==> r.lo <= c <= r.hi
  {
    assert [r][0] == r;
  }

  // ---- The comments' own example ----

  /** A pattern of one class, closed by the text's last character. */
  lemma OneClass(f: Text, s: Text)
    requires f != [] && f[0] == '[' && AtomEnd(f, 0) == |f|
    ensures WellFormed(f, 0)
    ensures Report(f, s, 0) == (0, if Hit(ClassAt(f, 0, false), s, 0) then 1 else 0, NO_CAPTURES)
  {
    var item := Atom(ClassAt(f, 0, false), One);
    assert SuffixAt(f, 0) == |f| && After(f, 0) == |f|;
    OneItem(f, s, 0, item);
    MatchAtom(item.cls, One, s, 0, 0, NO_CAPTURES);
  }

  /** `[-9]` takes a 0, which is not promised: nothing has been read before it, so it
      is everything up to 9. */
  lemma HyphenNine()
    ensures var f: Text := ['[', '-', '9', ']'];
            WellFormed(f, 0) && LeadingHyphen(f, 0) && Report(f, ['0'], 0) == (0, 1, NO_CAPTURES) &&
            !In(Class(false, Promised(f, 0).ranges), '0')
  {
    var f: Text := ['[', '-', '9', ']'];
    ListsRange(f, 0, false);
    assert PromisedFrom(f, 3, false, '9') == Scanned([], 3);
    assert PromisedFrom(f, 2, false, '-') == Scanned([Range('9', '9')], 3);
    assert Promised(f, 0).ranges == [Range('-', '-'), Range('9', '9')];
    ListedAlone(Range(NUL, '9'), '0');
    hide Promised, PromisedFrom, LostFrom;
    assert AtomEnd(f, 0) == 4 by {
      assert Scan(f, 3, false, '-') == Scanned([], 3);
    }
    OneClass(f, ['0']);
  }

  /** `[^-9]` takes the hyphen it was to leave out: it is the range from `^` to 9,
      which is empty. */
  lemma NotHyphenNine()
    ensures var f: Text := ['[', '^', '-', '9', ']'];
            WellFormed(f, 0) && LeadingHyphen(f, 0) && Report(f, ['-'], 0) == (0, 1, NO_CAPTURES) &&
            !In(Class(true, Promised(f, 0).ranges), '-')
  {
    var f: Text := ['[', '^', '-', '9', ']'];
    ListsRange(f, 0, false);
    PromisesHyphen(f, 0);
    ListedAlone(Range('^', '9'), '-');
    assert AtomEnd(f, 0) == 5 by {
      assert Scan(f, 4, false, '-') == Scanned([], 4);
    }
    OneClass(f, ['-']);
  }

  /** Repeated, it means one thing in the first turn and another in the next: `[-9]*`
      takes only one of two zeros. */
  lemma HyphenNineStarred()
    ensures var f: Text := ['[', '-', '9', ']', '*'];
            WellFormed(f, 0) && Report(f, ['0', '0'], 0) == (0, 1, NO_CAPTURES)
  {
    var f: Text, s: Text := ['[', '-', '9', ']', '*'], ['0', '0'];
    var first, again := Class(false, [Range(NUL, '9')]), Class(false, [Range(']', '9')]);
    assert Scan(f, 3, false, '-') == Scanned([], 3);
    assert ClassAt(f, 0, false) == first && ClassAt(f, 0, true) == again && AtomEnd(f, 0) == 4;
    var item := Atom(first, Star(again));
    assert SuffixAt(f, 0) == 4 && SkipIdle(f, 5) == 5 && After(f, 0) == 5;
    assert ItemAt(f, 0, NOTHING_SEEN) == item;
    OneItem(f, s, 0, item);
    MatchStar(first, again, s, 0, 0, NO_CAPTURES);
    ListedAlone(Range(NUL, '9'), '0');
    ListedAlone(Range(']', '9'), '0');
    assert Hit(first, s, 0) && !Hit(again, s, 1);
  }

  /** `[a--]` does not take the hyphen before its closing bracket: that one ends a
      range from `a`, which is empty. */
  lemma ClosingHyphen()
    ensures var f: Text := ['[', 'a', '-', '-', ']'];
            WellFormed(f, 0) && !LeadingHyphen(f, 0) && ClosingHyphenLost(f, 0) &&
            Report(f, ['-'], 0) == (0, 0, NO_CAPTURES) && Listed(Promised(f, 0).ranges, '-')
  {
    var f: Text := ['[', 'a', '-', '-', ']'];
    assert Scan(f, 4, false, '-') == Scanned([], 4) && PromisedFrom(f, 4, false, '-') == Scanned([], 4);
    assert Scan(f, 2, false, 'a') == Scanned([Range('a', '-')], 4);
    assert PromisedFrom(f, 2, false, 'a') == Scanned([Range('-', '-')], 4);
    assert ClassAt(f, 0, false).ranges == [Range('a', 'a'), Range('a', '-')];
    assert Promised(f, 0).end == 4;
    HyphenPromised(f, 0);
    assert LostFrom(f, 2, false, 'a');
    assert !Listed(ClassAt(f, 0, false).ranges, '-');
    OneClass(f, ['-']);
  }
}
