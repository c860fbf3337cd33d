/** On a well-formed pattern the turns of the loop follow the meaning of the pattern,
    and end: item by item, whatever is matched takes a number of turns that leads to
    where the meaning says. */
module RegRefine {
  import opened Wrappers
  import opened Pattern
  import opened RegTurn
  import opened Matching

  ghost predicate Reaches(f: Text, s: Text, siIn: int, x: Cfg, y: Cfg) {
    exists n: nat :: Turns(f, s, siIn, x, n) == Going(y)
  }

  lemma Stays(f: Text, s: Text, siIn: int, x: Cfg)
    ensures Reaches(f, s, siIn, x, x)
  {
    assert Turns(f, s, siIn, x, 0) == Going(x);
  }

  lemma OneTurn(f: Text, s: Text, siIn: int, x: Cfg, y: Cfg)
    requires Turn(f, s, siIn, x) == Going(y)
    ensures Reaches(f, s, siIn, x, y)
  {
    hide Turn;
    assert Turns(f, s, siIn, y, 0) == Going(y);
    assert Turns(f, s, siIn, x, 1) == Going(y);
  }

  lemma Onward(f: Text, s: Text, siIn: int, x: Cfg, y: Cfg, z: Cfg)
    requires Reaches(f, s, siIn, x, y) && Reaches(f, s, siIn, y, z)
    ensures Reaches(f, s, siIn, x, z)
  {
    hide Turns;
    var j: nat :| Turns(f, s, siIn, x, j) == Going(y);
    var k: nat :| Turns(f, s, siIn, y, k) == Going(z);
    TurnsAdd(f, s, siIn, x, j, k);
  }

  /** The loop stands before position `p`, at level `level`, having passed `seen`. */
  predicate At(x: Cfg, p: nat, level: nat, seen: Seen) {
    x.fi == p && x.sp == level && 1 <= level <= DEPTH && x.si >= 1 &&
    x.mi == seen.groups && x.c == Previous(seen.read) &&
    forall k :: 0 <= k < level ==> x.sstack[k] >= 1
  }

  /** The stacks are as they were up to `level`. */
  predicate Kept(x: Cfg, y: Cfg, level: int) {
    level <= STACK_SIZE && y.aii == x.aii &&
    forall k :: 0 <= k < level ==>
      y.sstack[k] == x.sstack[k] && y.mstack[k] == x.mstack[k] && y.mistack[k] == x.mistack[k]
  }

  predicate Failed(m: int) {
    m == 0 || m == -2
  }

  /** The flag, the position and the texts are those of the outcome `r`. */
  predicate Shows(y: Cfg, r: Outcome) {
    y.caps == r.caps &&
    match r.end
    case Some(e) => y.m == 1 && y.si == e + 1
    case None => Failed(y.m)
  }

  // ---- Single turns ----

  lemma TurnAtom(f: Text, s: Text, siIn: int, x: Cfg, read: bool)
    requires 0 <= x.fi < |f| && !AltEnd(f, x.fi) && IsAtom(f, x.fi) && f[x.fi] !in {'*', '?'}
    requires x.c == Previous(read)
    ensures Turn(f, s, siIn, x) ==
            Try(s, x.(fi := AtomEnd(f, x.fi), c := Previous(read || f[x.fi] == '[')), AtomClass(f, x.fi, read),
                Restart(f, x.fi) + 1)
  {
    hide Try, ScanClass, Single, Negated;
  }

  lemma TurnSuffix(f: Text, s: Text, siIn: int, x: Cfg)
    requires 0 <= x.fi && AtSuffix(f, x.fi)
    ensures Turn(f, s, siIn, x) ==
            if f[x.fi] == '*' then Again(x.(fi := x.fi + 1)) else TakeBack(x.(fi := x.fi + 1))
  {}

  lemma TurnBrace(f: Text, s: Text, siIn: int, x: Cfg)
    requires 0 <= x.fi < |f| && Brace(f[x.fi])
    ensures Turn(f, s, siIn, x) == Going(x.(fi := x.fi + 1))
  {}

  lemma TurnAnchor(f: Text, s: Text, siIn: int, x: Cfg)
    requires 0 <= x.fi < |f| && (f[x.fi] == '^' || f[x.fi] == '$') && x.si >= 1
    ensures var fails := if f[x.fi] == '^' then x.si != siIn else !AtEnd(s, x.si - 1);
            Turn(f, s, siIn, x) == Going(x.(fi := x.fi + 1, m := if fails then MFalse(x.m) else x.m))
  {}

  lemma TurnGroup(f: Text, s: Text, siIn: int, x: Cfg)
    requires 0 <= x.fi < |f| && f[x.fi] in {'(', ')', '|'}
    ensures var y := x.(fi := x.fi + 1);
            Turn(f, s, siIn, x) == if f[x.fi] == '(' then Open(y) else if f[x.fi] == ')' then Close(s, y) else Bar(s, y)
  {
    hide Open, Close, Bar;
  }

  // ---- Runs of turns that do nothing ----

  lemma {:induction false} PassBraces(f: Text, s: Text, siIn: int, x: Cfg)
    requires x.fi >= 0
    ensures Reaches(f, s, siIn, x, x.(fi := SkipBraces(f, x.fi)))
    decreases |f| - x.fi
  {
    hide Turn, Turns, Reaches;
    if x.fi < |f| && Brace(f[x.fi]) {
      var y := x.(fi := x.fi + 1);
      TurnBrace(f, s, siIn, x);
      OneTurn(f, s, siIn, x, y);
      PassBraces(f, s, siIn, y);
      Onward(f, s, siIn, x, y, x.(fi := SkipBraces(f, x.fi)));
    } else {
      Stays(f, s, siIn, x);
    }
  }

  lemma {:induction false} PassIdle(f: Text, s: Text, siIn: int, x: Cfg)
    requires x.fi >= 0 && x.m != 0
    ensures Reaches(f, s, siIn, x, x.(fi := SkipIdle(f, x.fi)))
    decreases |f| - x.fi
  {
    hide Turn, Turns, Reaches;
    if x.fi < |f| && (Brace(f[x.fi]) || f[x.fi] == '?') {
      var y := x.(fi := x.fi + 1);
      if Brace(f[x.fi]) {
        TurnBrace(f, s, siIn, x);
      } else {
        TurnSuffix(f, s, siIn, x);
      }
      OneTurn(f, s, siIn, x, y);
      PassIdle(f, s, siIn, y);
      Onward(f, s, siIn, x, y, x.(fi := SkipIdle(f, x.fi)));
    } else {
      Stays(f, s, siIn, x);
    }
  }

  // ---- Atoms ----

  /** An atom has been tried at x.fi, from `x` to `y`. */
  predicate Tried(f: Text, x: Cfg, y: Cfg, hit: bool)
    requires 0 <= x.fi < |f|
  {
    y.fi == AtomEnd(f, x.fi) && y.sp == x.sp && y.mi == x.mi && y.caps == x.caps &&
    y.c == (if f[x.fi] == '[' then ']' else x.c) && Kept(x, y, x.sp) && 1 <= x.sp < STACK_SIZE &&
    if x.m == 1 then
      y.si == (if hit then x.si + 1 else x.si) && y.m == (if hit then 1 else 0) &&
      y.fstack[x.sp] == Restart(f, x.fi) + 1 && y.mstack[x.sp] == 1 && y.sstack[x.sp] == x.si
    else y.si == x.si && y.m == if x.m == 0 then -2 else x.m
  }

  predicate AtAtom(f: Text, x: Cfg, p: nat, level: nat, seen: Seen) {
    At(x, p, level, seen) && p < |f| && !AltEnd(f, p) && IsAtom(f, p) && f[p] !in {'*', '?'}
  }

  lemma TryAtom(f: Text, s: Text, siIn: int, x: Cfg, p: nat, level: nat, seen: Seen) returns (y: Cfg)
    requires AtAtom(f, x, p, level, seen)
    ensures Reaches(f, s, siIn, x, y) && Tried(f, x, y, Hit(AtomClass(f, p, seen.read), s, x.si - 1))
    ensures At(y, AtomEnd(f, p), level, SeenBy(f, p, seen))
  {
    hide Turn, Turns, Reaches, AtomEnd, AtomClass, Hit, AltEnd;
    TurnAtom(f, s, siIn, x, seen.read);
    y := Turn(f, s, siIn, x).x;
    OneTurn(f, s, siIn, x, y);
  }

  /** Past the braces to where the repetition of the atom stands. */
  lemma ToSuffix(f: Text, s: Text, siIn: int, x: Cfg, p: nat, level: nat, seen: Seen)
    returns (e: Cfg, y: Cfg)
    requires AtAtom(f, x, p, level, seen)
    ensures Reaches(f, s, siIn, x, y)
    ensures At(y, SuffixAt(f, p), level, SeenBy(f, p, seen))
    ensures Tried(f, x, e, Hit(AtomClass(f, p, seen.read), s, x.si - 1)) && y == e.(fi := SuffixAt(f, p))
  {
    hide Turn, Turns, Reaches, AtomEnd, AtomClass, Hit, AltEnd, IsAtom, SkipBraces;
    e := TryAtom(f, s, siIn, x, p, level, seen);
    y := e.(fi := SuffixAt(f, p));
    PassBraces(f, s, siIn, e);
    Onward(f, s, siIn, x, e, y);
  }

  /** Past a repetition that does not jump back, and what is idle after it. */
  lemma PassSuffix(f: Text, s: Text, siIn: int, x: Cfg, level: nat, seen: Seen) returns (y: Cfg)
    requires x.fi >= 0 && At(x, x.fi, level, seen) && AtSuffix(f, x.fi)
    requires f[x.fi] == '*' ==> x.m != 1
    requires x.m == 0 ==> x.mstack[level] == 1 && x.sstack[level] == x.si
    ensures Reaches(f, s, siIn, x, y)
    ensures y == x.(fi := SkipIdle(f, x.fi + 1), m := if x.m == 0 then 1 else x.m)
  {
    hide Turn, Turns, Reaches, SkipIdle;
    TurnSuffix(f, s, siIn, x);
    var z := x.(fi := x.fi + 1, m := if x.m == 0 then 1 else x.m);
    OneTurn(f, s, siIn, x, z);
    PassIdle(f, s, siIn, z);
    y := z.(fi := SkipIdle(f, x.fi + 1));
    Onward(f, s, siIn, x, z, y);
  }

  /** An atom without repetition, or an option. */
  lemma RunAtom(f: Text, s: Text, siIn: int, x: Cfg, p: nat, level: nat, seen: Seen) returns (y: Cfg)
    requires AtAtom(f, x, p, level, seen) && x.m == 1
    requires AtSuffix(f, SuffixAt(f, p)) ==> f[SuffixAt(f, p)] == '?'
    ensures Reaches(f, s, siIn, x, y) && At(y, After(f, p), level, SeenBy(f, p, seen)) && Kept(x, y, level)
    ensures var hit := Hit(AtomClass(f, p, seen.read), s, x.si - 1);
            y.caps == x.caps && y.si == (if hit then x.si + 1 else x.si) &&
            y.m == if hit || AtSuffix(f, SuffixAt(f, p)) then 1 else 0
  {
    AfterAtom(f, p);
    hide Turn, Turns, Reaches, AtomEnd, AtomClass, Hit, AltEnd, IsAtom, SuffixAt, After, SeenBy, SkipIdle;
    if AtSuffix(f, SuffixAt(f, p)) {
      var e, z := ToSuffix(f, s, siIn, x, p, level, seen);
      y := PassSuffix(f, s, siIn, z, level, SeenBy(f, p, seen));
      Onward(f, s, siIn, x, z, y);
    } else {
      y := TryAtom(f, s, siIn, x, p, level, seen);
    }
  }

  lemma AfterAtom(f: Text, p: nat)
    requires p < |f| && IsAtom(f, p)
    ensures After(f, p) ==
            if AtSuffix(f, SuffixAt(f, p)) then SkipIdle(f, SuffixAt(f, p) + 1) else AtomEnd(f, p)
  {}

  predicate Starred(f: Text, p: nat)
    requires p < |f|
  {
    IsAtom(f, p) && SuffixAt(f, p) < |f| && f[SuffixAt(f, p)] == '*' &&
    (f[p] == '\\' ==> f[p + 1] !in SPECIAL)
  }

  /** After a hit, a repetition starts again at an atom that means the repeated one. */
  lemma RestartOk(f: Text, p: nat, seen: Seen, s: Text, i: nat)
    requires p < |f| && !AltEnd(f, p) && Starred(f, p) && f[p] !in {'*', '?'}
    requires Hit(AtomClass(f, p, seen.read), s, i)
    ensures var r, seen' := Restart(f, p), SeenBy(f, p, seen);
            r < |f| && !AltEnd(f, r) && Starred(f, r) && f[r] !in {'*', '?'} &&
            Restart(f, r) == r && SuffixAt(f, r) == SuffixAt(f, p) && After(f, r) == After(f, p) &&
            SeenBy(f, r, seen') == seen' &&
            AtomClass(f, r, seen'.read) == AgainClass(f, p) && AgainClass(f, r) == AgainClass(f, p)
  {
    if f[p] == '\\' {
      assert Single(f[p + 1]).ranges[0] == Range(f[p + 1], f[p + 1]);
      assert f[p + 1] != NUL;
      assert AtomEnd(f, p + 1) == AtomEnd(f, p);
    }
  }

  /** A starred atom that hits: back to where it starts again. */
  lemma StarBack(f: Text, s: Text, siIn: int, x: Cfg, p: nat, level: nat, seen: Seen) returns (y: Cfg)
    requires AtAtom(f, x, p, level, seen) && x.m == 1 && Starred(f, p)
    requires Hit(AtomClass(f, p, seen.read), s, x.si - 1)
    ensures Reaches(f, s, siIn, x, y) && At(y, Restart(f, p), level, SeenBy(f, p, seen)) && Kept(x, y, level)
    ensures y.caps == x.caps && y.m == 1 && y.si == x.si + 1
  {
    hide Turn, Turns, Reaches, AtomEnd, AtomClass, Hit, AltEnd, IsAtom, SuffixAt, SeenBy, Restart;
    var e, z := ToSuffix(f, s, siIn, x, p, level, seen);
    TurnSuffix(f, s, siIn, z);
    y := z.(fi := Restart(f, p));
    OneTurn(f, s, siIn, z, y);
    Onward(f, s, siIn, x, z, y);
  }

  /** And one that misses: on. */
  lemma StarOut(f: Text, s: Text, siIn: int, x: Cfg, p: nat, level: nat, seen: Seen) returns (y: Cfg)
    requires AtAtom(f, x, p, level, seen) && x.m == 1 && Starred(f, p)
    requires !Hit(AtomClass(f, p, seen.read), s, x.si - 1)
    ensures Reaches(f, s, siIn, x, y) && At(y, After(f, p), level, SeenBy(f, p, seen)) && Kept(x, y, level)
    ensures y.caps == x.caps && y.m == 1 && y.si == x.si
  {
    AfterAtom(f, p);
    hide Turn, Turns, Reaches, AtomEnd, AtomClass, Hit, AltEnd, IsAtom, SuffixAt, SeenBy, After, SkipIdle;
    var e, z := ToSuffix(f, s, siIn, x, p, level, seen);
    y := PassSuffix(f, s, siIn, z, level, SeenBy(f, p, seen));
    Onward(f, s, siIn, x, z, y);
  }

  /** A starred atom takes the longest run. */
  lemma {:induction false} RunStar(f: Text, s: Text, siIn: int, x: Cfg, p: nat, level: nat, seen: Seen)
    returns (y: Cfg)
    requires AtAtom(f, x, p, level, seen) && x.m == 1 && Starred(f, p)
    ensures Reaches(f, s, siIn, x, y) && At(y, After(f, p), level, SeenBy(f, p, seen)) && Kept(x, y, level)
    ensures y.caps == x.caps && y.m == 1
    ensures y.si - 1 == StarEnd(AtomClass(f, p, seen.read), AgainClass(f, p), s, x.si - 1)
    decreases Left(s, x.si - 1)
  {
    hide Turn, Turns, Reaches, AtomClass, AgainClass, AltEnd, IsAtom, After, SeenBy, Restart, Starred;
    if Hit(AtomClass(f, p, seen.read), s, x.si - 1) {
      RestartOk(f, p, seen, s, x.si - 1);
      var z := StarBack(f, s, siIn, x, p, level, seen);
      y := RunStar(f, s, siIn, z, Restart(f, p), level, SeenBy(f, p, seen));
      Onward(f, s, siIn, x, z, y);
    } else {
      y := StarOut(f, s, siIn, x, p, level, seen);
    }
  }

  /** An atom while nothing is matched. */
  lemma SkipAtom(f: Text, s: Text, siIn: int, x: Cfg, p: nat, level: nat, seen: Seen) returns (y: Cfg)
    requires AtAtom(f, x, p, level, seen) && (Failed(x.m) || x.m == -1)
    ensures Reaches(f, s, siIn, x, y) && At(y, After(f, p), level, SeenBy(f, p, seen)) && Kept(x, y, level)
    ensures y.caps == x.caps && y.si == x.si && y.m == if x.m == -1 then -1 else -2
  {
    AfterAtom(f, p);
    hide Turn, Turns, Reaches, AtomEnd, AtomClass, Hit, AltEnd, IsAtom, SuffixAt, After, SeenBy, SkipIdle;
    if AtSuffix(f, SuffixAt(f, p)) {
      var e, z := ToSuffix(f, s, siIn, x, p, level, seen);
      y := PassSuffix(f, s, siIn, z, level, SeenBy(f, p, seen));
      Onward(f, s, siIn, x, z, y);
    } else {
      y := TryAtom(f, s, siIn, x, p, level, seen);
    }
  }

  // ---- Items, alternatives and groups ----

  lemma ItemsFrom(f: Text, p: nat, seen: Seen, level: nat, nest: bool)
    requires !AltEnd(f, p) && AltOk(f, p, level, nest)
    ensures var next, seen' := After(f, p), SeenBy(f, p, seen);
            Items(f, p, seen) == [ItemAt(f, p, seen)] + Items(f, next, seen') &&
            EndFrom(f, p) == EndFrom(f, next) && SeenFrom(f, p, seen) == SeenFrom(f, next, seen') &&
            ItemOk(f, p, level, nest) && AltOk(f, next, level, nest)
  {}

  lemma NoItems(f: Text, p: nat, seen: Seen)
    requires AltEnd(f, p)
    ensures Items(f, p, seen) == [] && EndFrom(f, p) == p && SeenFrom(f, p, seen) == seen
  {}

  /** What stands at `p`, if it is neither a group nor an atom. */
  lemma MarkAt(f: Text, p: nat, seen: Seen)
    requires p < |f| && !AltEnd(f, p) && f[p] != '(' && !IsAtom(f, p)
    ensures After(f, p) == p + 1 && SeenBy(f, p, seen) == seen
    ensures match f[p]
            case '^' => ItemAt(f, p, seen) == LineStart
            case '$' => ItemAt(f, p, seen) == LineEnd
            case c => Brace(c) && ItemAt(f, p, seen) == Nothing
  {}

  lemma RunMark(f: Text, s: Text, start: nat, x: Cfg, p: nat, level: nat, seen: Seen) returns (y: Cfg)
    requires At(x, p, level, seen) && x.m == 1
    requires p < |f| && !AltEnd(f, p) && f[p] != '(' && !IsAtom(f, p)
    ensures Reaches(f, s, start + 1, x, y) && At(y, After(f, p), level, SeenBy(f, p, seen)) && Kept(x, y, level)
    ensures Shows(y, Match([ItemAt(f, p, seen)], s, x.si - 1, start, x.caps))
  {
    MarkAt(f, p, seen);
    MatchMark(ItemAt(f, p, seen), s, x.si - 1, start, x.caps);
    hide Turn, Turns, Reaches, ItemAt, Match, After, SeenBy, AtEnd;
    if f[p] == '^' || f[p] == '$' {
      TurnAnchor(f, s, start + 1, x);
    } else {
      TurnBrace(f, s, start + 1, x);
    }
    y := Turn(f, s, start + 1, x).x;
    OneTurn(f, s, start + 1, x, y);
  }

  lemma AtomItem(f: Text, p: nat, seen: Seen)
    requires p < |f| && IsAtom(f, p)
    ensures var q := SuffixAt(f, p);
            ItemAt(f, p, seen) ==
            Atom(AtomClass(f, p, seen.read),
                 if q < |f| && f[q] == '*' then Star(AgainClass(f, p))
                 else if q < |f| && f[q] == '?' then Optional
                 else One)
  {}

  lemma RunAtomItem(f: Text, s: Text, start: nat, x: Cfg, p: nat, level: nat, seen: Seen) returns (y: Cfg)
    requires AtAtom(f, x, p, level, seen) && x.m == 1
    requires f[p] == '\\' && f[p + 1] in SPECIAL ==> SuffixAt(f, p) >= |f| || f[SuffixAt(f, p)] != '*'
    ensures Reaches(f, s, start + 1, x, y) && At(y, After(f, p), level, SeenBy(f, p, seen)) && Kept(x, y, level)
    ensures Shows(y, Match([ItemAt(f, p, seen)], s, x.si - 1, start, x.caps))
  {
    AtomItem(f, p, seen);
    hide Turn, Turns, Reaches, ItemAt, Match, After, SeenBy, AltEnd, IsAtom, AtomClass, AgainClass, SuffixAt, Hit;
    var cls, item := AtomClass(f, p, seen.read), ItemAt(f, p, seen);
    if item.repeat.Star? {
      MatchStar(cls, AgainClass(f, p), s, x.si - 1, start, x.caps);
      y := RunStar(f, s, start + 1, x, p, level, seen);
    } else {
      MatchAtom(cls, item.repeat, s, x.si - 1, start, x.caps);
      y := RunAtom(f, s, start + 1, x, p, level, seen);
    }
  }

  /** Inside a group at `level`: the stacks hold its number and where it began. */
  predicate Inside(x: Cfg, level: nat, number: nat, entry: int, flag: int) {
    2 <= level <= DEPTH && x.mistack[level - 1] == number && x.sstack[level - 1] == entry &&
    x.mstack[level - 1] == flag
  }

  lemma OpenGroup(f: Text, s: Text, siIn: int, x: Cfg, p: nat, level: nat, seen: Seen) returns (y: Cfg)
    requires At(x, p, level, seen) && p < |f| && f[p] == '(' && level < DEPTH
    ensures var seen' := seen.(groups := seen.groups + 1);
            Reaches(f, s, siIn, x, y) && At(y, p + 1, level + 1, seen') && Kept(x, y, level) &&
            Inside(y, level + 1, seen'.groups, x.si, x.m) &&
            y.m == x.m && y.si == x.si && y.caps == x.caps
  {
    hide Turn, Turns, Reaches;
    TurnGroup(f, s, siIn, x);
    y := Turn(f, s, siIn, x).x;
    OneTurn(f, s, siIn, x, y);
  }

  /** A closing parenthesis, after a match, a success skipped over, or a failure. */
  lemma CloseGroup(f: Text, s: Text, siIn: int, x: Cfg, p: nat, level: nat, seen: Seen, number: nat, entry: int,
                   flag: int)
    returns (y: Cfg)
    requires At(x, p, level, seen) && p < |f| && f[p] == ')' && Inside(x, level, number, entry, flag)
    requires x.m == 1 || x.m == -1 || Failed(x.m)
    ensures Reaches(f, s, siIn, x, y) && At(y, p + 1, level - 1, seen) && Kept(x, y, level)
    ensures y.caps == if x.m == 1 then Capture(x.caps, number, CopyText(s, entry, x.si - 1, ROOM)) else x.caps
    ensures if Failed(x.m) then y.m == 0 else y.m == 1 && y.si == x.si
  {
    hide Turn, Turns, Reaches, CopyText, Capture;
    TurnGroup(f, s, siIn, x);
    y := Turn(f, s, siIn, x).x;
    OneTurn(f, s, siIn, x, y);
  }

  /** A bar inside a group. */
  lemma NextInGroup(f: Text, s: Text, siIn: int, x: Cfg, p: nat, level: nat, seen: Seen, number: nat, entry: int,
                    flag: int)
    returns (y: Cfg)
    requires At(x, p, level, seen) && p < |f| && f[p] == '|' && Inside(x, level, number, entry, flag)
    requires x.m == 1 || x.m == -1 || Failed(x.m)
    ensures Reaches(f, s, siIn, x, y) && At(y, p + 1, level, seen) && Kept(x, y, level)
    ensures y.caps == if x.m == 1 then Capture(x.caps, number, CopyText(s, entry, x.si - 1, ROOM)) else x.caps
    ensures if Failed(x.m) then y.m == flag && y.si == entry else y.m == -1 && y.si == x.si
  {
    hide Turn, Turns, Reaches, CopyText, Capture;
    TurnGroup(f, s, siIn, x);
    y := Turn(f, s, siIn, x).x;
    OneTurn(f, s, siIn, x, y);
  }

  /** What is copied is what was matched, as far as there is room. */
  lemma {:induction false} CopiedText(s: Text, i: nat, e: nat, room: nat)
    requires i <= e && (e <= |s| || e == i) && forall k :: i <= k < e ==> s[k] != NUL
    ensures var t := Span(s, i, e);
            CopyText(s, i + 1, e, room) == if |t| > room then t[..room] else t
    decreases room
  {
    hide CopyText, Span;
    CopiedFirst(s, i, e, room);
    if room == 0 || i == e {
    } else {
      CopiedText(s, i + 1, e, room - 1);
      Prepended(s[i], Span(s, i + 1, e), room);
    }
  }

  lemma CopiedFirst(s: Text, i: nat, e: nat, room: nat)
    requires i <= e && (i < e <= |s| ==> s[i] != NUL)
    ensures room == 0 || i == e ==> CopyText(s, i + 1, e, room) == []
    ensures i == e ==> Span(s, i, e) == []
    ensures i < e <= |s| ==> Span(s, i, e) == [s[i]] + Span(s, i + 1, e)
    ensures i < e <= |s| && room > 0 ==> CopyText(s, i + 1, e, room) == [s[i]] + CopyText(s, i + 2, e, room - 1)
  {}

  lemma Prepended(c: Character, t: Text, room: nat)
    requires room > 0
    ensures var u := [c] + t;
            (if |u| > room then u[..room] else u) == [c] + if |t| > room - 1 then t[..room - 1] else t
  {}

  // What the next lemmas need of a group's alternatives.

  lemma GroupFrom(f: Text, p: nat, seen: Seen, level: nat, nest: bool)
    requires GroupOk(f, p, level, nest)
    ensures var q, seen' := EndFrom(f, p), SeenFrom(f, p, seen);
            AltOk(f, p, level, nest) && p <= q < |f| &&
            if f[q] == '|' then
              GroupOk(f, q + 1, level, false) && GroupEnd(f, p) == GroupEnd(f, q + 1) &&
              SeenGroup(f, p, seen) == SeenGroup(f, q + 1, seen') &&
              GroupAlts(f, p, seen) == [Alternative(Items(f, p, seen))] + GroupAlts(f, q + 1, seen')
            else
              f[q] == ')' && GroupEnd(f, p) == q + 1 && SeenGroup(f, p, seen) == seen' &&
              GroupAlts(f, p, seen) == [Alternative(Items(f, p, seen))]
  {}

  lemma GroupItem(f: Text, p: nat, seen: Seen)
    requires p < |f| && f[p] == '('
    ensures var seen', e := seen.(groups := seen.groups + 1), GroupEnd(f, p + 1);
            ItemAt(f, p, seen) == Group(seen'.groups, GroupAlts(f, p + 1, seen'), MayMiss(f, e)) &&
            After(f, p) == (if MayMiss(f, e) then SkipBraces(f, e) + 1 else e) &&
            SeenBy(f, p, seen) == SeenGroup(f, p + 1, seen')
  {}

  lemma EntryKept(x: Cfg, z: Cfg, w: Cfg, level: nat, number: nat, entry: int, flag: int)
    requires Inside(z, level + 1, number, entry, flag) && Kept(z, w, level + 1)
    ensures level < STACK_SIZE && w.mstack[level] == flag && w.sstack[level] == entry
    ensures forall y: Cfg {:trigger Kept(x, y, level)} :: Kept(x, z, level) && Kept(w, y, level) ==> Kept(x, y, level)
  {}

  /** Past the option of a group: a failure is taken back to where the group began. */
  lemma PassOption(f: Text, s: Text, siIn: int, x: Cfg, level: nat, seen: Seen, entry: int, flag: int) returns (y: Cfg)
    requires x.fi >= 0 && At(x, x.fi, level, seen) && MayMiss(f, x.fi) && entry >= 1
    requires x.mstack[level] == flag && x.sstack[level] == entry
    ensures Reaches(f, s, siIn, x, y)
    ensures y == x.(fi := SkipBraces(f, x.fi) + 1, m := if x.m == 0 then flag else x.m,
                    si := if x.m == 0 then entry else x.si)
  {
    hide Turn, Turns, Reaches;
    var z := x.(fi := SkipBraces(f, x.fi));
    PassBraces(f, s, siIn, x);
    TurnSuffix(f, s, siIn, z);
    y := Turn(f, s, siIn, z).x;
    OneTurn(f, s, siIn, z, y);
    Onward(f, s, siIn, x, z, y);
  }

  /** From the end of a group to what comes next. */
  lemma LeaveGroup(f: Text, s: Text, siIn: int, x: Cfg, e: nat, level: nat, seen: Seen, entry: int, flag: int)
    returns (y: Cfg)
    requires At(x, e, level, seen) && entry >= 1
    requires x.mstack[level] == flag && x.sstack[level] == entry && x.m != -1
    ensures Reaches(f, s, siIn, x, y) && Kept(x, y, level) && y.caps == x.caps
    ensures At(y, if MayMiss(f, e) then SkipBraces(f, e) + 1 else e, level, seen)
    ensures if MayMiss(f, e) && x.m == 0 then y.m == flag && y.si == entry else y.m == x.m && y.si == x.si
  {
    hide Turn, Turns, Reaches;
    if MayMiss(f, e) {
      y := PassOption(f, s, siIn, x, level, seen, entry, flag);
    } else {
      y := x;
      Stays(f, s, siIn, x);
    }
  }

  // ---- While nothing is matched ----

  predicate Skipping(m: int, nest: bool) {
    Failed(m) || (m == -1 && !nest)
  }

  /** Nothing is captured, and the flag stays down. */
  predicate Skipped(x: Cfg, y: Cfg) {
    y.caps == x.caps && if x.m == -1 then y.m == -1 && y.si == x.si else Failed(y.m)
  }

  lemma SkipMark(f: Text, s: Text, siIn: int, x: Cfg, p: nat, level: nat, seen: Seen) returns (y: Cfg)
    requires At(x, p, level, seen) && (Failed(x.m) || x.m == -1)
    requires p < |f| && !AltEnd(f, p) && f[p] != '(' && !IsAtom(f, p)
    ensures Reaches(f, s, siIn, x, y) && At(y, After(f, p), level, SeenBy(f, p, seen)) && Kept(x, y, level)
    ensures Skipped(x, y)
  {
    MarkAt(f, p, seen);
    hide Turn, Turns, Reaches, ItemAt, After, SeenBy, AtEnd;
    if f[p] == '^' || f[p] == '$' {
      TurnAnchor(f, s, siIn, x);
    } else {
      TurnBrace(f, s, siIn, x);
    }
    y := Turn(f, s, siIn, x).x;
    OneTurn(f, s, siIn, x, y);
  }

  lemma {:induction false} SkipItem(f: Text, s: Text, siIn: int, x: Cfg, p: nat, level: nat, seen: Seen, nest: bool)
    returns (y: Cfg)
    requires At(x, p, level, seen) && Skipping(x.m, nest)
    requires p < |f| && !AltEnd(f, p) && ItemOk(f, p, level, nest)
    ensures Reaches(f, s, siIn, x, y) && At(y, After(f, p), level, SeenBy(f, p, seen)) && Kept(x, y, level)
    ensures Skipped(x, y)
    decreases |f| - p, 0
  {
    hide Turn, Turns, Reaches, ItemAt, IsAtom;
    if f[p] == '(' {
      GroupItem(f, p, seen);
      var seen' := seen.(groups := seen.groups + 1);
      NestedOk(f, x, p, level, seen, nest);
      hide ItemOk, After, SeenBy, Kept, GroupEnd, MayMiss, GroupAlts, GroupOk, SeenGroup;
      var z := OpenGroup(f, s, siIn, x, p, level, seen);
      var w := SkipGroup(f, s, siIn, z, p + 1, level + 1, seen', nest, seen'.groups, x.si, x.m);
      EntryKept(x, z, w, level, seen'.groups, x.si, x.m);
      y := LeaveGroup(f, s, siIn, w, GroupEnd(f, p + 1), level, SeenGroup(f, p + 1, seen'), x.si, x.m);
      Onward(f, s, siIn, x, z, w);
      Onward(f, s, siIn, x, w, y);
    } else if IsAtom(f, p) {
      hide After, SeenBy;
      y := SkipAtom(f, s, siIn, x, p, level, seen);
    } else {
      hide After, SeenBy;
      y := SkipMark(f, s, siIn, x, p, level, seen);
    }
  }

  lemma {:induction false} SkipItems(f: Text, s: Text, siIn: int, x: Cfg, p: nat, level: nat, seen: Seen, nest: bool)
    returns (y: Cfg)
    requires At(x, p, level, seen) && Skipping(x.m, nest) && AltOk(f, p, level, nest)
    ensures Reaches(f, s, siIn, x, y) && At(y, EndFrom(f, p), level, SeenFrom(f, p, seen)) && Kept(x, y, level)
    ensures Skipped(x, y)
    decreases |f| - p, 1
  {
    hide Turn, Turns, Reaches, Items, ItemAt, After, SeenBy, EndFrom, SeenFrom, ItemOk, AltOk;
    if AltEnd(f, p) {
      NoItems(f, p, seen);
      Stays(f, s, siIn, x);
      y := x;
    } else {
      ItemsFrom(f, p, seen, level, nest);
      var z := SkipItem(f, s, siIn, x, p, level, seen, nest);
      y := SkipItems(f, s, siIn, z, After(f, p), level, SeenBy(f, p, seen), nest);
      Onward(f, s, siIn, x, z, y);
    }
  }

  /** To the end of a group: one that is not matched fails, and one of which an
      alternative has matched goes on after it. */
  lemma {:induction false} SkipGroup(f: Text, s: Text, siIn: int, x: Cfg, p: nat, level: nat, seen: Seen, nest: bool,
                                     number: nat, entry: int, flag: int)
    returns (y: Cfg)
    requires At(x, p, level, seen) && Inside(x, level, number, entry, flag) && GroupOk(f, p, level, nest)
    requires (Failed(x.m) && Failed(flag) && entry >= 1) || (x.m == -1 && !nest)
    ensures Reaches(f, s, siIn, x, y) && At(y, GroupEnd(f, p), level - 1, SeenGroup(f, p, seen))
    ensures Kept(x, y, level) && y.caps == x.caps
    ensures if x.m == -1 then y.m == 1 && y.si == x.si else y.m == 0
    decreases |f| - p, 2
  {
    hide Turn, Turns, Reaches, EndFrom, SeenFrom, AltOk, GroupOk, GroupEnd, SeenGroup, GroupAlts;
    GroupFrom(f, p, seen, level, nest);
    var q, seen' := EndFrom(f, p), SeenFrom(f, p, seen);
    var z := SkipItems(f, s, siIn, x, p, level, seen, nest);
    if f[q] == '|' {
      var w := NextInGroup(f, s, siIn, z, q, level, seen', number, entry, flag);
      y := SkipGroup(f, s, siIn, w, q + 1, level, seen', false, number, entry, flag);
      Onward(f, s, siIn, x, z, w);
      Onward(f, s, siIn, x, w, y);
    } else {
      y := CloseGroup(f, s, siIn, z, q, level, seen', number, entry, flag);
      Onward(f, s, siIn, x, z, y);
    }
  }

  // ---- While matching goes on ----

  lemma {:induction false} RunItem(f: Text, s: Text, start: nat, x: Cfg, p: nat, level: nat, seen: Seen, nest: bool)
    returns (y: Cfg)
    requires At(x, p, level, seen) && x.m == 1
    requires p < |f| && !AltEnd(f, p) && ItemOk(f, p, level, nest)
    ensures Reaches(f, s, start + 1, x, y) && At(y, After(f, p), level, SeenBy(f, p, seen)) && Kept(x, y, level)
    ensures Shows(y, Match([ItemAt(f, p, seen)], s, x.si - 1, start, x.caps))
    decreases |f| - p, 1
  {
    hide Turn, Turns, Reaches, ItemAt, IsAtom, Match, Shows, After, SeenBy, Kept;
    if f[p] == '(' {
      y := RunNested(f, s, start, x, p, level, seen, nest);
    } else if IsAtom(f, p) {
      y := RunAtomItem(f, s, start, x, p, level, seen);
    } else {
      y := RunMark(f, s, start, x, p, level, seen);
    }
  }

  lemma {:induction false} RunNested(f: Text, s: Text, start: nat, x: Cfg, p: nat, level: nat, seen: Seen, nest: bool)
    returns (y: Cfg)
    requires At(x, p, level, seen) && x.m == 1
    requires p < |f| && f[p] == '(' && ItemOk(f, p, level, nest)
    ensures Reaches(f, s, start + 1, x, y) && At(y, After(f, p), level, SeenBy(f, p, seen)) && Kept(x, y, level)
    ensures Shows(y, Match([ItemAt(f, p, seen)], s, x.si - 1, start, x.caps))
    decreases |f| - p, 0
  {
    hide Turn, Turns, Reaches, ItemAt, Match, Choose, Shows, After, SeenBy, ItemOk, GroupAlts, GroupOk, SeenGroup;
    hide GroupEnd, MayMiss, Kept, At, SkipBraces;
    var seen' := seen.(groups := seen.groups + 1);
    GroupItem(f, p, seen);
    NestedOk(f, x, p, level, seen, nest);
    var z := OpenGroup(f, s, start + 1, x, p, level, seen);
    var w := RunGroup(f, s, start, z, p + 1, level + 1, seen', nest, seen'.groups);
    EntryKept(x, z, w, level, seen'.groups, x.si, 1);
    y := LeaveGroup(f, s, start + 1, w, GroupEnd(f, p + 1), level, SeenGroup(f, p + 1, seen'), x.si, 1);
    LeftAs(f, s, start, w, y, seen'.groups, GroupAlts(f, p + 1, seen'), GroupEnd(f, p + 1), x.si - 1, x.caps);
    Onward(f, s, start + 1, x, z, w);
    Onward(f, s, start + 1, x, w, y);
  }

  lemma NestedOk(f: Text, x: Cfg, p: nat, level: nat, seen: Seen, nest: bool)
    requires At(x, p, level, seen) && p < |f| && f[p] == '(' && ItemOk(f, p, level, nest)
    ensures 1 <= level < DEPTH && x.si >= 1 && GroupOk(f, p + 1, level + 1, nest)
  {}

  /** What a group shows where it ends, it shows after its option. */
  lemma LeftAs(f: Text, s: Text, start: nat, x: Cfg, y: Cfg, number: nat, alts: seq<Alternative>, e: nat, i: nat,
               caps: Captures)
    requires Shows(x, Choose(alts, number, s, i, start, caps)) && (x.m == 1 || x.m == 0) && y.caps == x.caps
    requires if MayMiss(f, e) && x.m == 0 then y.m == 1 && y.si == i + 1 else y.m == x.m && y.si == x.si
    ensures Shows(y, Match([Group(number, alts, MayMiss(f, e))], s, i, start, caps))
  {
    MatchGroup(number, alts, MayMiss(f, e), s, i, start, caps);
    hide Match, Choose, MayMiss;
  }

  /** To the end of an alternative: it matches as its items do. */
  lemma {:induction false} RunItems(f: Text, s: Text, start: nat, x: Cfg, p: nat, level: nat, seen: Seen, nest: bool)
    returns (y: Cfg)
    requires At(x, p, level, seen) && x.m == 1 && AltOk(f, p, level, nest)
    ensures Reaches(f, s, start + 1, x, y) && At(y, EndFrom(f, p), level, SeenFrom(f, p, seen)) && Kept(x, y, level)
    ensures Shows(y, Match(Items(f, p, seen), s, x.si - 1, start, x.caps))
    decreases |f| - p, 2
  {
    hide Turn, Turns, Reaches, Items, ItemAt, After, SeenBy, EndFrom, SeenFrom, ItemOk, AltOk, Match;
    if AltEnd(f, p) {
      NoItems(f, p, seen);
      MatchNothing(s, x.si - 1, start, x.caps);
      Stays(f, s, start + 1, x);
      y := x;
    } else {
      ItemsFrom(f, p, seen, level, nest);
      MatchCons(ItemAt(f, p, seen), Items(f, After(f, p), SeenBy(f, p, seen)), s, x.si - 1, start, x.caps);
      var z := RunItem(f, s, start, x, p, level, seen, nest);
      y := GoOn(f, s, start, z, After(f, p), level, SeenBy(f, p, seen), nest);
      Onward(f, s, start + 1, x, z, y);
    }
  }

  /** After an item: the rest of the alternative is run, or skipped. */
  lemma {:induction false} GoOn(f: Text, s: Text, start: nat, x: Cfg, p: nat, level: nat, seen: Seen, nest: bool)
    returns (y: Cfg)
    requires At(x, p, level, seen) && (x.m == 1 || Failed(x.m)) && AltOk(f, p, level, nest)
    ensures Reaches(f, s, start + 1, x, y) && At(y, EndFrom(f, p), level, SeenFrom(f, p, seen)) && Kept(x, y, level)
    ensures if x.m == 1 then Shows(y, Match(Items(f, p, seen), s, x.si - 1, start, x.caps))
            else Failed(y.m) && y.caps == x.caps
    decreases |f| - p, 3
  {
    hide Turn, Turns, Reaches, Items, EndFrom, SeenFrom, AltOk, Match, Shows;
    if x.m == 1 {
      y := RunItems(f, s, start, x, p, level, seen, nest);
    } else {
      y := SkipItems(f, s, start + 1, x, p, level, seen, nest);
    }
  }

  /** After an alternative of a group has matched: the rest of the group is skipped. */
  lemma GroupMatched(f: Text, s: Text, siIn: int, x: Cfg, q: nat, level: nat, seen: Seen, number: nat, entry: int)
    returns (y: Cfg)
    requires At(x, q, level, seen) && Inside(x, level, number, entry, 1) && x.m == 1 && q < |f|
    requires if f[q] == '|' then GroupOk(f, q + 1, level, false) else f[q] == ')'
    ensures Reaches(f, s, siIn, x, y) && Kept(x, y, level)
    ensures At(y, if f[q] == '|' then GroupEnd(f, q + 1) else q + 1, level - 1,
               if f[q] == '|' then SeenGroup(f, q + 1, seen) else seen)
    ensures y.m == 1 && y.si == x.si && y.caps == Capture(x.caps, number, CopyText(s, entry, x.si - 1, ROOM))
  {
    hide Turn, Turns, Reaches, GroupOk, GroupEnd, SeenGroup, CopyText, Capture;
    if f[q] == '|' {
      var w := NextInGroup(f, s, siIn, x, q, level, seen, number, entry, 1);
      y := SkipGroup(f, s, siIn, w, q + 1, level, seen, false, number, entry, 1);
      Onward(f, s, siIn, x, w, y);
    } else {
      y := CloseGroup(f, s, siIn, x, q, level, seen, number, entry, 1);
    }
  }

  /** What a matched alternative captures. */
  lemma MatchedText(items: seq<Item>, s: Text, i: nat, start: nat, caps: Captures, e: nat)
    requires Match(items, s, i, start, caps).end == Some(e)
    ensures CopyText(s, i + 1, e, ROOM) == Clip(Span(s, i, e))
  {
    MatchSpan(items, s, i, start, caps);
    CopiedText(s, i, e, ROOM);
  }

  /** To the end of a group, from the beginning of one of its alternatives: it takes the
      first that matches. */
  lemma {:induction false} RunGroup(f: Text, s: Text, start: nat, x: Cfg, p: nat, level: nat, seen: Seen, nest: bool,
                                    number: nat)
    returns (y: Cfg)
    requires At(x, p, level, seen) && Inside(x, level, number, x.si, 1) && x.m == 1 && GroupOk(f, p, level, nest)
    ensures Reaches(f, s, start + 1, x, y) && At(y, GroupEnd(f, p), level - 1, SeenGroup(f, p, seen))
    ensures Kept(x, y, level) && (y.m == 1 || y.m == 0)
    ensures Shows(y, Choose(GroupAlts(f, p, seen), number, s, x.si - 1, start, x.caps))
    decreases |f| - p, 3
  {
    hide Turn, Turns, Reaches, EndFrom, SeenFrom, AltOk, GroupOk, GroupEnd, SeenGroup, GroupAlts, Items, Match, Choose;
    hide CopyText, Clip, Capture, Span;
    GroupFrom(f, p, seen, level, nest);
    var q, seen', i, items := EndFrom(f, p), SeenFrom(f, p, seen), x.si - 1, Items(f, p, seen);
    GroupChoice(f, p, seen, level, nest, number, s, i, start, x.caps);
    var z := RunItems(f, s, start, x, p, level, seen, nest);
    if z.m == 1 {
      MatchedText(items, s, i, start, x.caps, z.si - 1);
      y := GroupMatched(f, s, start + 1, z, q, level, seen', number, x.si);
      Onward(f, s, start + 1, x, z, y);
    } else if f[q] == '|' {
      var w := NextInGroup(f, s, start + 1, z, q, level, seen', number, x.si, 1);
      y := RunGroup(f, s, start, w, q + 1, level, seen', false, number);
      Onward(f, s, start + 1, x, z, w);
      Onward(f, s, start + 1, x, w, y);
    } else {
      y := CloseGroup(f, s, start + 1, z, q, level, seen', number, x.si, 1);
      Onward(f, s, start + 1, x, z, y);
    }
  }

  /** Choosing among a group's alternatives: the first, or else the rest. */
  lemma GroupChoice(f: Text, p: nat, seen: Seen, level: nat, nest: bool, number: nat, s: Text, i: nat, start: nat,
                    caps: Captures)
    requires GroupOk(f, p, level, nest)
    ensures var q, r := EndFrom(f, p), Match(Items(f, p, seen), s, i, start, caps);
            q < |f| &&
            Choose(GroupAlts(f, p, seen), number, s, i, start, caps) ==
            match r.end
            case Some(e) => Outcome(Some(e), Capture(r.caps, number, Clip(Span(s, i, e))))
            case None =>
              if f[q] == '|' then Choose(GroupAlts(f, q + 1, SeenFrom(f, p, seen)), number, s, i, start, r.caps)
              else Outcome(None, r.caps)
  {
    hide EndFrom, SeenFrom, AltOk, GroupOk, GroupEnd, SeenGroup, GroupAlts, Items, Match, Choose;
    GroupFrom(f, p, seen, level, nest);
    var q, first := EndFrom(f, p), Alternative(Items(f, p, seen));
    var rest := if f[q] == '|' then GroupAlts(f, q + 1, SeenFrom(f, p, seen)) else [];
    assert [first] + [] == [first];
    ChooseFrom(Items(f, p, seen), rest, number, s, i, start, caps);
  }

  // ---- The whole pattern ----

  /** From `x` the loop ends, and what is reported is `verdict`. */
  ghost predicate EndsWith(f: Text, s: Text, siIn: int, x: Cfg, verdict: Verdict) {
    exists n: nat :: Turns(f, s, siIn, x, n).Done? && VerdictOf(siIn, Turns(f, s, siIn, x, n)) == verdict
  }

  lemma EndsLater(f: Text, s: Text, siIn: int, x: Cfg, y: Cfg, verdict: Verdict)
    requires Reaches(f, s, siIn, x, y) && EndsWith(f, s, siIn, y, verdict)
    ensures EndsWith(f, s, siIn, x, verdict)
  {
    hide Turns, VerdictOf;
    var j: nat :| Turns(f, s, siIn, x, j) == Going(y);
    var k: nat :| Turns(f, s, siIn, y, k).Done? && VerdictOf(siIn, Turns(f, s, siIn, y, k)) == verdict;
    TurnsAdd(f, s, siIn, x, j, k);
  }

  lemma EndsNow(f: Text, s: Text, siIn: int, x: Cfg)
    requires Turn(f, s, siIn, x).Done?
    ensures EndsWith(f, s, siIn, x, VerdictOf(siIn, Turn(f, s, siIn, x)))
  {
    hide Turn, VerdictOf;
    assert Turns(f, s, siIn, x, 1) == Turn(f, s, siIn, x);
  }

  /** Before an alternative of the pattern, outside groups. */
  predicate AtTop(x: Cfg, p: nat, seen: Seen, start: nat) {
    At(x, p, 1, seen) && x.m == 1 && x.si == start + 1 &&
    x.sstack[0] == start + 1 && x.mstack[0] == 1 && x.mistack[0] == 0
  }

  /** What is reported of the alternatives from `p` on, `before` of them being past. */
  function ReportFrom(f: Text, p: nat, seen: Seen, s: Text, start: nat, before: int, caps: Captures): Verdict {
    var alts := Alts(f, p, seen);
    var r := FirstMatch(alts, s, start, caps);
    match r.at
    case None => (0, start + 1, r.caps)
    case Some((k, e)) => (before + if k + 1 == |alts| && !Terminated(f, p) then k else k + 1, e + 1, r.caps)
  }

  /** That, alternative by alternative. */
  lemma ReportStep(f: Text, p: nat, seen: Seen, s: Text, start: nat, before: int, caps: Captures)
    ensures var q, r := EndFrom(f, p), Match(Items(f, p, seen), s, start, start, caps);
            var bar := q < |f| && f[q] == '|';
            ReportFrom(f, p, seen, s, start, before, caps) ==
            match r.end
            case Some(e) => (if bar || (q < |f| && f[q] == NUL) then before + 1 else before, e + 1, r.caps)
            case None =>
              if bar then ReportFrom(f, q + 1, SeenFrom(f, p, seen).(groups := 0), s, start, before + 1, r.caps)
              else (0, start + 1, r.caps)
  {
    hide Items, Match, EndFrom, SeenFrom, Alts, FirstMatch, Terminated;
    var q, first := EndFrom(f, p), Alternative(Items(f, p, seen));
    var r := Match(first.items, s, start, start, caps);
    var rest := if q < |f| && f[q] == '|' then Alts(f, q + 1, SeenFrom(f, p, seen).(groups := 0)) else [];
    AltsFrom(f, p, seen);
    FirstOf(first, rest, s, start, caps);
  }

  lemma AltsFrom(f: Text, p: nat, seen: Seen)
    ensures var q := EndFrom(f, p);
            var bar := q < |f| && f[q] == '|';
            Alts(f, p, seen) == [Alternative(Items(f, p, seen))] +
                                (if bar then Alts(f, q + 1, SeenFrom(f, p, seen).(groups := 0)) else []) &&
            Terminated(f, p) == if bar then Terminated(f, q + 1) else q < |f| && f[q] == NUL
  {
    hide Items, EndFrom, SeenFrom;
  }

  lemma FirstOf(first: Alternative, rest: seq<Alternative>, s: Text, start: nat, caps: Captures)
    ensures var r := Match(first.items, s, start, start, caps);
            FirstMatch([first] + rest, s, start, caps) ==
            match r.end
            case Some(e) => Found(Some((0, e)), r.caps)
            case None => if rest == [] then Found(None, r.caps) else OneLater(FirstMatch(rest, s, start, r.caps))
  {
    var alts := [first] + rest;
    assert alts[0] == first && alts[1..] == rest;
    hide Match;
  }

  lemma AltFrom(f: Text, p: nat)
    requires WellFormed(f, p)
    ensures var q := EndFrom(f, p);
            AltOk(f, p, 1, true) && q >= p &&
            (q < |f| && f[q] != NUL && !Dangling(f, q) ==> f[q] == '|' && WellFormed(f, q + 1))
  {}

  /** After an alternative: the end, or the next one. */
  lemma AfterAlternative(f: Text, s: Text, start: nat, x: Cfg, q: nat, seen: Seen)
    requires At(x, q, 1, seen) && (x.m == 1 || Failed(x.m))
    requires x.sstack[0] == start + 1 && x.mstack[0] == 1 && x.mistack[0] == 0
    requires q < |f| && f[q] != NUL && !Dangling(f, q) ==> f[q] == '|'
    ensures var bar := q < |f| && f[q] == '|';
            match Turn(f, s, start + 1, x)
            case Going(y) =>
              bar && Failed(x.m) && AtTop(y, q + 1, seen.(groups := 0), start) && y.caps == x.caps && y.aii == x.aii + 1
            case Done(m, aii, si, caps) =>
              (bar ==> x.m == 1) && m == x.m && si == x.si && caps == x.caps &&
              aii == if bar || (q < |f| && f[q] == NUL) then x.aii + 1 else x.aii
            case Fault => false
  {
    if q < |f| && f[q] == '|' {
      TurnGroup(f, s, start + 1, x);
    }
  }

  lemma {:induction false} RunTop(f: Text, s: Text, start: nat, x: Cfg, p: nat, seen: Seen)
    requires AtTop(x, p, seen, start) && WellFormed(f, p)
    ensures EndsWith(f, s, start + 1, x, ReportFrom(f, p, seen, s, start, x.aii, x.caps))
    decreases |f| - p
  {
    hide Turn, Turns, Reaches, Items, Match, EndFrom, SeenFrom, AltOk, WellFormed, ReportFrom, EndsWith;
    AltFrom(f, p);
    ReportStep(f, p, seen, s, start, x.aii, x.caps);
    var q, seen' := EndFrom(f, p), SeenFrom(f, p, seen);
    var z := RunItems(f, s, start, x, p, 1, seen, true);
    AfterAlternative(f, s, start, z, q, seen');
    match Turn(f, s, start + 1, z)
    case Going(y) =>
      OneTurn(f, s, start + 1, z, y);
      Onward(f, s, start + 1, x, z, y);
      RunTop(f, s, start, y, q + 1, seen'.(groups := 0));
      EndsLater(f, s, start + 1, x, y, ReportFrom(f, p, seen, s, start, x.aii, x.caps));
    case Done(_, _, _, _) =>
      EndsNow(f, s, start + 1, z);
      EndsLater(f, s, start + 1, x, z, VerdictOf(start + 1, Turn(f, s, start + 1, z)));
    case Fault =>
  }

  lemma ReportIs(f: Text, s: Text, start: nat)
    ensures var r := Report(f, s, start);
            (r.0, r.1 + 1, r.2) == ReportFrom(f, 0, NOTHING_SEEN, s, start, 0, NO_CAPTURES)
  {
    hide Alts, FirstMatch, Terminated;
  }

  /** On every well-formed pattern and every subject the loop ends and reports the
      first alternative that matches, where it ends, and what its groups and those
      before it have captured. */
  lemma ReportsMeaning(f: Text, s: Text, siIn: nat)
    requires siIn >= 1 && WellFormed(f, 0)
    ensures var r := Report(f, s, siIn - 1);
            Reports(f, s, siIn, (r.0, r.1 + 1, r.2)) && Ends(f, s, siIn)
  {
    hide Turns, Turn, WellFormed, FirstMatch, Alts, Terminated;
    RunTop(f, s, siIn - 1, Start(siIn), 0, NOTHING_SEEN);
    var verdict := ReportFrom(f, 0, NOTHING_SEEN, s, siIn - 1, 0, NO_CAPTURES);
    var n: nat :| Turns(f, s, siIn, Start(siIn), n).Done? &&
                  VerdictOf(siIn, Turns(f, s, siIn, Start(siIn), n)) == verdict;
    assert EndsIn(f, s, siIn, n);
  }
}
