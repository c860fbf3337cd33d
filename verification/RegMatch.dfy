/** `regmatch` of regexp_h.vhdl as a program. Positions are counted from 1, as in the
    source. */
module RegMatch {
  import opened Wrappers
  import opened Pattern
  import opened RegTurn
  import opened RegRefine

  /** The bit table of a class, indexed by character code. */
  ghost predicate Table(t: seq<bool>, cls: Class) {
    |t| == 257 && forall c: Character :: t[c as int] == In(cls, c)
  }

  lemma ListedOne(ranges: seq<Range>, r: Range, c: Character)
    ensures Listed(ranges + [r], c) == (Listed(ranges, c) || r.lo <= c <= r.hi)
  {
    if Listed(ranges, c) {
      var k :| 0 <= k < |ranges| && ranges[k].lo <= c <= ranges[k].hi;
      assert (ranges + [r])[k] == ranges[k];
    }
    assert (ranges + [r])[|ranges|] == r;
  }

  lemma EmptyTable(negated: bool)
    ensures Table(seq(257, _ => negated), Class(negated, []))
  {}

  lemma SetOne(t: seq<bool>, cls: Class, c: Character)
    requires Table(t, cls)
    ensures Table(t[c as int := !cls.negated], Class(cls.negated, cls.ranges + [Range(c, c)]))
  {
    var t' := t[c as int := !cls.negated];
    forall d: Character
      ensures t'[d as int] == In(Class(cls.negated, cls.ranges + [Range(c, c)]), d)
    {
      ListedOne(cls.ranges, Range(c, c), d);
      assert t[d as int] == In(cls, d);
      assert d as int == c as int || c <= d <= c ==> d == c;
    }
  }

  lemma SetFirst(t: seq<bool>, c: Character)
    requires Table(t, Class(false, []))
    ensures Table(t[c as int := true], Single(c))
  {
    SetOne(t, Class(false, []), c);
    assert [] + [Range(c, c)] == [Range(c, c)];
  }

  /** Adds a range to the class, or takes it out of a negated one. */
  method SetRange(t0: seq<bool>, lo: Character, hi: Character, tset: bool, ghost cls: Class)
    returns (t: seq<bool>)
    requires Table(t0, cls) && tset == !cls.negated
    ensures Table(t, Class(cls.negated, cls.ranges + [Range(lo, hi)]))
  {
    t := t0;
    var ti := lo as int;
    while ti <= hi as int
      invariant lo as int <= ti && |t| == 257
      invariant ti <= if lo <= hi then hi as int + 1 else lo as int
      invariant forall k :: 0 <= k < 257 ==> t[k] == if lo as int <= k < ti then tset else t0[k]
    {
      t := t[ti := tset];
      ti := ti + 1;
    }
    forall c: Character
      ensures t[c as int] == In(Class(cls.negated, cls.ranges + [Range(lo, hi)]), c)
    {
      ListedOne(cls.ranges, Range(lo, hi), c);
      assert t0[c as int] == In(cls, c);
      assert t[c as int] == if lo <= c <= hi then tset else t0[c as int];
    }
  }

  /** `ranges` have been read of a class, and `rest` is what is ahead. */
  ghost predicate Ahead(whole: Scanned, ranges: seq<Range>, rest: Scanned) {
    whole == Scanned(ranges + rest.ranges, rest.end)
  }

  lemma MoveOn(whole: Scanned, ranges: seq<Range>, r: Range, rest: Scanned)
    requires Ahead(whole, ranges, rest.Prepend(r))
    ensures Ahead(whole, ranges + [r], rest)
  {
    assert ranges + ([r] + rest.ranges) == ranges + [r] + rest.ranges;
  }

  lemma NothingAhead(whole: Scanned, ranges: seq<Range>, end: nat)
    requires Ahead(whole, ranges, Scanned([], end))
    ensures whole == Scanned(ranges, end)
  {}

  /** One character of a class. */
  lemma ScanStep(f: Text, p: nat, first: bool, b: Character)
    ensures p >= |f| ==> Scan(f, p, first, b) == Scanned([], |f|)
    ensures p < |f| ==>
              var c := f[p];
              var last := p + 1 >= |f|;
              Scan(f, p, first, b) ==
              if c == '\\' then
                if last then Scanned([], |f|)
                else Scan(f, p + 2, false, c).Prepend(Range(Escaped(f[p + 1]), Escaped(f[p + 1])))
              else if c == ']' && !first then Scanned([], p)
              else if c == '-' && last then Scanned([], |f|)
              else if c == '-' && f[p + 1] != ']' then Scan(f, p + 2, false, c).Prepend(Range(b, f[p + 1]))
              else Scan(f, p + 1, false, c).Prepend(Range(c, c))
  {}

  /** What has been read of the class opened at f(open), up to position `fi`; `before`
      is the last character read of a class before it. */
  ghost predicate Reading(f: Text, open: nat, before: Character, fi: nat, c: Character, t: seq<bool>,
                          ranges: seq<Range>)
    requires open >= 1
  {
    var negated := Negated(f, open - 1);
    var from := if negated then open + 1 else open;
    from <= fi <= |f| && Table(t, Class(negated, ranges)) &&
    Ahead(ScanClass(f, open - 1, before), ranges, Scan(f, fi, fi == from, c))
  }

  /** The class has been read, up to its closing bracket or past the end. */
  ghost predicate HasRead(f: Text, open: nat, before: Character, fi: nat, c: Character, t: seq<bool>)
    requires open >= 1 && fi >= 1
  {
    var whole := ScanClass(f, open - 1, before);
    Table(t, Class(Negated(f, open - 1), whole.ranges)) && whole.end == fi - 1 && (fi <= |f| ==> c == ']')
  }

  /** Reads one element of a class, or its closing bracket. */
  method ReadElement(f: Text, open: nat, ghost before: Character, fi0: nat, c0: Character, t0: seq<bool>, tset: bool,
                     ghost ranges0: seq<Range>)
    returns (done: bool, t: seq<bool>, fi: nat, c: Character, ghost ranges: seq<Range>)
    requires open >= 1 && Reading(f, open, before, fi0, c0, t0, ranges0) && tset == !Negated(f, open - 1)
    ensures fi > fi0
    ensures if done then HasRead(f, open, before, fi, c, t) else Reading(f, open, before, fi, c, t, ranges)
  {
    ghost var whole := ScanClass(f, open - 1, before);
    IsReading(f, open, before, fi0, c0, t0, ranges0);
    ScanStep(f, fi0, fi0 == (if tset then open else open + 1), c0);
    hide Reading, HasRead, Table, Scan, Ahead, ScanClass, Escaped, Negated, Scanned.Prepend;
    t, c, ranges, done := t0, c0, ranges0, false;
    fi := fi0 + 1;
    if fi > |f| {
      done := true;
    } else {
      c := f[fi - 1];
      if c == '\\' {
        fi := fi + 1;
        if fi > |f| {
          done := true;
        } else {
          t, ranges := SetChar(t, Escaped(f[fi - 1]), tset, ranges, whole, Scan(f, fi, false, c));
        }
      } else if c == ']' && !((fi == open + 1 && tset) || (fi == open + 2 && !tset)) {
        done := true;
      } else if c == '-' {
        fi := fi + 1;
        if fi > |f| {
          done := true;
        } else if f[fi - 1] == ']' {
          fi := fi - 1;
          t, ranges := SetChar(t, c, tset, ranges, whole, Scan(f, fi, false, c));
        } else {
          t, ranges := SetBetween(t, c0, f[fi - 1], tset, ranges, whole, Scan(f, fi, false, c));
        }
      } else {
        t, ranges := SetChar(t, c, tset, ranges, whole, Scan(f, fi, false, c));
      }
    }
    if done {
      DoneReading(f, open, before, fi, c, t, ranges);
    } else {
      StillReading(f, open, before, fi, c, t, ranges);
    }
  }

  lemma IsReading(f: Text, open: nat, before: Character, fi: nat, c: Character, t: seq<bool>, ranges: seq<Range>)
    requires open >= 1 && Reading(f, open, before, fi, c, t, ranges)
    ensures var negated := Negated(f, open - 1);
            var from := if negated then open + 1 else open;
            from <= fi <= |f| && Table(t, Class(negated, ranges)) &&
            Ahead(ScanClass(f, open - 1, before), ranges, Scan(f, fi, fi == from, c))
  {}

  lemma StillReading(f: Text, open: nat, before: Character, fi: nat, c: Character, t: seq<bool>, ranges: seq<Range>)
    requires open >= 1 && Table(t, Class(Negated(f, open - 1), ranges))
    requires (if Negated(f, open - 1) then open + 1 else open) < fi <= |f|
    requires Ahead(ScanClass(f, open - 1, before), ranges, Scan(f, fi, false, c))
    ensures Reading(f, open, before, fi, c, t, ranges)
  {}

  lemma DoneReading(f: Text, open: nat, before: Character, fi: nat, c: Character, t: seq<bool>, ranges: seq<Range>)
    requires open >= 1 && fi >= 1 && Table(t, Class(Negated(f, open - 1), ranges)) && (fi <= |f| ==> c == ']')
    requires Ahead(ScanClass(f, open - 1, before), ranges, Scanned([], fi - 1))
    ensures HasRead(f, open, before, fi, c, t)
  {
    NothingAhead(ScanClass(f, open - 1, before), ranges, fi - 1);
  }

  method SetChar(t0: seq<bool>, c: Character, tset: bool, ghost ranges0: seq<Range>, ghost whole: Scanned,
                 ghost rest: Scanned)
    returns (t: seq<bool>, ghost ranges: seq<Range>)
    requires Table(t0, Class(!tset, ranges0)) && Ahead(whole, ranges0, rest.Prepend(Range(c, c)))
    ensures Table(t, Class(!tset, ranges)) && Ahead(whole, ranges, rest)
    ensures c as int < |t0| && t == t0[c as int := tset]
  {
    SetOne(t0, Class(!tset, ranges0), c);
    MoveOn(whole, ranges0, Range(c, c), rest);
    t := t0[c as int := tset];
    ranges := ranges0 + [Range(c, c)];
  }

  method SetBetween(t0: seq<bool>, lo: Character, hi: Character, tset: bool, ghost ranges0: seq<Range>,
                    ghost whole: Scanned, ghost rest: Scanned)
    returns (t: seq<bool>, ghost ranges: seq<Range>)
    requires Table(t0, Class(!tset, ranges0)) && Ahead(whole, ranges0, rest.Prepend(Range(lo, hi)))
    ensures Table(t, Class(!tset, ranges)) && Ahead(whole, ranges, rest)
  {
    MoveOn(whole, ranges0, Range(lo, hi), rest);
    t := SetRange(t0, lo, hi, tset, Class(!tset, ranges0));
    ranges := ranges0 + [Range(lo, hi)];
  }

  /** Reads a bracket class from its opening bracket, f(open), to its closing one,
      or past the end of the text. */
  method ReadClass(f: Text, open: nat, before: Character)
    returns (t: seq<bool>, fi: nat, c: Character)
    requires 1 <= open <= |f| && f[open - 1] == '['
    ensures Table(t, Class(Negated(f, open - 1), ScanClass(f, open - 1, before).ranges))
    ensures fi == AtomEnd(f, open - 1) && (fi <= |f| ==> c == ']')
  {
    SameEnd(f, open - 1, NUL, before);
    ghost var ranges: seq<Range> := [];
    var done, tset := false, true;
    EmptyTable(false);
    EmptyTable(true);
    t := seq(257, _ => false);
    fi, c := open, before;
    if fi < |f| && f[fi] == '^' {
      fi := fi + 1;
      c := '^';
      tset := false;
      t := seq(257, _ => true);
    }
    while !done
      invariant tset == !Negated(f, open - 1) && fi >= 1
      invariant if done then HasRead(f, open, before, fi, c, t) else Reading(f, open, before, fi, c, t, ranges)
      decreases |f| + 1 - fi, !done
    {
      hide Table, ScanClass, Scan, Ahead;
      done, t, fi, c, ranges := ReadElement(f, open, before, fi, c, t, tset, ranges);
    }
  }

  // ---- The main loop ----

  /** The variables of the loop make up `x`; past the end of the pattern the last
      character read does not matter. */
  ghost predicate Holds(f: Text, x: Cfg, fi: int, si: int, m: int, aii: int, c: Character, sp: int, mi: int,
                        caps: Captures, fstack: seq<int>, mstack: seq<int>, sstack: seq<int>, mistack: seq<int>)
  {
    |fstack| == |mstack| == |sstack| == |mistack| == STACK_SIZE &&
    x == Cfg(fi, si, m, aii, x.c, sp, mi, fstack, mstack, sstack, mistack, caps) &&
    (fi <= |f| ==> c == x.c)
  }

  /** A turn has left the variables as `r` says. */
  ghost predicate Leaves(f: Text, r: Turned, stopped: bool, fi: int, si: int, m: int, aii: int, c: Character, sp: int,
                         mi: int, caps: Captures, fstack: seq<int>, mstack: seq<int>, sstack: seq<int>,
                         mistack: seq<int>)
  {
    match r
    case Going(y) => !stopped && Holds(f, y, fi, si, m, aii, c, sp, mi, caps, fstack, mstack, sstack, mistack)
    case Done(m', aii', si', caps') => stopped && m == m' && aii == aii' && si == si' && caps == caps'
    case Fault => true
  }

  /** Tries the table on the next character, unless matching is not going on. */
  method TryAtom(s: Text, t0: seq<bool>, m0: int, si0: int, sp: int, mstack: array<int>, sstack: array<int>,
                 ghost cls: Class)
    returns (m: int, si: int)
    requires Table(t0, cls) && mstack.Length == sstack.Length == STACK_SIZE && mstack != sstack
    requires m0 == 1 ==> OnStack(sp + 1) && si0 >= 1
    modifies mstack, sstack
    ensures m0 == 1 ==>
              var hit := Hit(cls, s, si0 - 1);
              m == (if hit then 1 else 0) && si == (if hit then si0 + 1 else si0) &&
              mstack[..] == old(mstack[..])[sp := 1] && sstack[..] == old(sstack[..])[sp := si0]
    ensures m0 != 1 ==>
              m == (if m0 == 0 then -2 else m0) && si == si0 &&
              mstack[..] == old(mstack[..]) && sstack[..] == old(sstack[..])
  {
    m, si := m0, si0;
    if m == 0 {
      m := -2;
    } else if m == 1 {
      sstack[sp], mstack[sp] := si, m;
      var t := t0[NUL as int := false];
      if si <= |s| {
        assert s[si - 1] as int == NUL as int ==> s[si - 1] == NUL;
        if t[s[si - 1] as int] {
          si := si + 1;
        } else {
          m := 0;
        }
      } else {
        m := 0;
      }
    }
  }

  /** An atom, which is anything but the marks and groups below. */
  predicate AtomHere(f: Text, fi: int) {
    1 <= fi <= |f| && !AltEnd(f, fi - 1) && IsAtom(f, fi - 1) && f[fi - 1] !in {'*', '?', '(', ')'}
  }

  /** A turn at an atom tries the class `cls`. */
  ghost predicate Tries(f: Text, fi0: int, c0: Character, fi: int, cls: Class, restart: int)
    requires AtomHere(f, fi0)
  {
    forall s, siIn, x: Cfg :: x.fi == fi0 && x.c == c0 ==>
      Take(f, s, siIn, x) == Try(s, x.(fi := fi, c := if f[fi0 - 1] == '[' then ']' else c0), cls, restart)
  }

  /** The atom at f(fi0): the table of its class, its last position, and where its
      repetition starts again. */
  method ReadAtom(f: Text, fi0: nat, c0: Character)
    returns (t: seq<bool>, fi: nat, c: Character, restart: nat, ghost cls: Class)
    requires AtomHere(f, fi0)
    ensures Table(t, cls) && Tries(f, fi0, c0, fi, cls, restart)
    ensures fi <= |f| ==> c == if f[fi0 - 1] == '[' then ']' else c0
  {
    fi, c, restart := fi0, c0, fi0;
    EmptyTable(false);
    EmptyTable(true);
    t := seq(257, _ => false);
    if f[fi - 1] == '[' {
      cls := Class(Negated(f, fi - 1), ScanClass(f, fi - 1, c).ranges);
      t, fi, c := ReadClass(f, fi, c);
    } else if f[fi - 1] == '\\' {
      fi := fi + 1;
      restart := fi;
      cls := Single(f[fi - 1]);
      SetFirst(t, f[fi - 1]);
      t := t[f[fi - 1] as int := true];
    } else if f[fi - 1] == '.' {
      cls := ANY;
      t := seq(257, _ => true);
    } else {
      cls := Single(f[fi - 1]);
      SetFirst(t, f[fi - 1]);
      t := t[f[fi - 1] as int := true];
    }
  }

  method TakeAtom(f: Text, s: Text, siIn: int, fi0: nat, si0: int, m0: int, c0: Character, sp: int,
                  fstack: array<int>, mstack: array<int>, sstack: array<int>, ghost x: Cfg)
    returns (fi: int, si: int, m: int, c: Character)
    requires AtomHere(f, fi0)
    requires fstack != mstack && mstack != sstack && sstack != fstack
    requires Holds(f, x, fi0, si0, m0, x.aii, c0, sp, x.mi, x.caps, fstack[..], mstack[..], sstack[..], x.mistack)
    requires !Take(f, s, siIn, x).Fault?
    modifies fstack, mstack, sstack
    ensures Leaves(f, Take(f, s, siIn, x), false, fi, si, m, x.aii, c, sp, x.mi, x.caps,
                   fstack[..], mstack[..], sstack[..], x.mistack)
  {
    var t, restart;
    ghost var cls;
    hide Take, Table, Hit, AltEnd, IsAtom;
    t, fi, c, restart, cls := ReadAtom(f, fi0, c0);
    if m0 == 1 {
      fstack[sp] := restart;
    }
    m, si := TryAtom(s, t, m0, si0, sp, mstack, sstack, cls);
  }

  /** The anchors and the repetitions. */
  method TakeMark(f: Text, s: Text, siIn: int, fi0: nat, si0: int, m0: int, sp: int,
                  fstack: array<int>, mstack: array<int>, sstack: array<int>, ghost x: Cfg)
    returns (fi: int, si: int, m: int)
    requires 1 <= fi0 <= |f| && f[fi0 - 1] in {'^', '$', '*', '?'}
    requires Holds(f, x, fi0, si0, m0, x.aii, x.c, sp, x.mi, x.caps, fstack[..], mstack[..], sstack[..], x.mistack)
    requires !Take(f, s, siIn, x).Fault?
    ensures Leaves(f, Take(f, s, siIn, x), false, fi, si, m, x.aii, x.c, sp, x.mi, x.caps,
                   fstack[..], mstack[..], sstack[..], x.mistack)
  {
    fi, si, m := fi0, si0, m0;
    match f[fi - 1] {
      case '^' =>
        if si != siIn {
          m := MFalse(m);
        }
      case '$' =>
        if si <= |s| {
          if s[si - 1] != NUL {
            m := MFalse(m);
          }
        } else if si != |s| + 1 {
          m := MFalse(m);
        }
      case '*' =>
        if m == 1 {
          fi := fstack[sp] - 1;
        } else if m == 0 {
          m, si := mstack[sp], sstack[sp];
        }
      case _ =>
        if m == 0 {
          m, si := mstack[sp], sstack[sp];
        }
    }
  }

  /** Copies s(i) to s(j), or to a NUL, into a string of 80 characters that ends in a
      NUL. */
  method CopyOut(s: Text, i: int, j: int) returns (t: Text)
    requires i >= 1
    ensures t == CopyText(s, i, j, ROOM)
  {
    hide CopyText;
    ShorterCopy(s, i, j, ROOM);
    var k := i;
    t := [];
    while true
      invariant k >= i && |t| <= ROOM + 1
      invariant CopyText(s, i, j, ROOM + 1) == t + CopyText(s, k, j, ROOM + 1 - |t|)
      decreases ROOM + 1 - |t|, |s| - k
    {
      CopyStep(s, k, j, ROOM + 1 - |t|);
      if |t| > ROOM {
        t := t[..ROOM];
        break;
      }
      if k > |s| {
        break;
      }
      if s[k - 1] == NUL {
        break;
      }
      if k > j {
        break;
      }
      t, k := t + [s[k - 1]], k + 1;
    }
  }

  lemma CopyStep(s: Text, i: int, j: int, room: nat)
    requires i >= 1
    ensures CopyText(s, i, j, room) ==
            if room == 0 || i > |s| || s[i - 1] == NUL || i > j then []
            else [s[i - 1]] + CopyText(s, i + 1, j, room - 1)
  {}

  lemma {:induction false} ShorterCopy(s: Text, i: int, j: int, room: nat)
    ensures var t := CopyText(s, i, j, room + 1);
            CopyText(s, i, j, room) == if |t| > room then t[..room] else t
    decreases room
  {
    if room == 0 {
    } else {
      ShorterCopy(s, i + 1, j, room - 1);
    }
  }

  /** Keeps the text of the group just matched, if it is one of the first four. */
  method Keep(s: Text, caps0: Captures, number: int, from: int, si: int) returns (caps: Captures)
    requires from >= 1
    ensures caps == Capture(caps0, number, CopyText(s, from, si - 1, ROOM))
  {
    caps := caps0;
    var ms := CopyOut(s, from, si - 1);
    match number {
      case 1 => caps := caps[0 := Some(ms)];
      case 2 => caps := caps[1 := Some(ms)];
      case 3 => caps := caps[2 := Some(ms)];
      case 4 => caps := caps[3 := Some(ms)];
      case _ =>
    }
  }

  /** Groups, and the bar. */
  method TakeGroup(f: Text, s: Text, siIn: int, fi: nat, si0: int, m0: int, aii0: int, sp0: int, mi0: int,
                   caps0: Captures, fstack: array<int>, mstack: array<int>, sstack: array<int>,
                   mistack: array<int>, ghost x: Cfg)
    returns (stopped: bool, si: int, m: int, aii: int, sp: int, mi: int, caps: Captures)
    requires 1 <= fi <= |f| && f[fi - 1] in {'(', ')', '|'}
    requires Apart(fstack, mstack, sstack, mistack)
    requires Holds(f, x, fi, si0, m0, aii0, x.c, sp0, mi0, caps0, fstack[..], mstack[..], sstack[..], mistack[..])
    requires !Take(f, s, siIn, x).Fault?
    modifies fstack, mstack, sstack, mistack
    ensures Leaves(f, Take(f, s, siIn, x), stopped, fi, si, m, aii, x.c, sp, mi, caps,
                   fstack[..], mstack[..], sstack[..], mistack[..])
  {
    hide CopyText, Capture;
    stopped, si, m, aii, sp, mi, caps := false, si0, m0, aii0, sp0, mi0, caps0;
    if f[fi - 1] == '(' {
      sp := sp + 1;
      sstack[sp - 1], fstack[sp - 1], mstack[sp - 1] := si, fi - 1, m;
      mi := mi + 1;
      mistack[sp - 1] := mi;
    } else if f[fi - 1] == ')' {
      if m == 1 {
        caps := Keep(s, caps, mistack[sp - 1], sstack[sp - 1], si);
      }
      sp := sp - 1;
      if m == -1 {
        m := 1;
      } else if m == 0 || m == -2 {
        m, si := 0, sstack[sp - 1];
      }
    } else {
      if m == 1 {
        caps := Keep(s, caps, mistack[sp - 1], sstack[sp - 1], si);
      }
      if sp == 1 {
        mi := 0;
        aii := aii + 1;
        stopped := m == 1;
      }
      if !stopped {
        if m == 1 {
          m := -1;
        } else if m == 0 || m == -2 {
          m, si := mstack[sp - 1], sstack[sp - 1];
        }
      }
    }
  }

  predicate Apart(a: array<int>, b: array<int>, c: array<int>, d: array<int>) {
    a != b && a != c && a != d && b != c && b != d && c != d
  }

  /** What stands at f(fi0). */
  method TakeItem(f: Text, s: Text, siIn: int, fi0: nat, si0: int, m0: int, aii0: int, c0: Character, sp0: int,
                  mi0: int, caps0: Captures, fstack: array<int>, mstack: array<int>, sstack: array<int>,
                  mistack: array<int>, ghost x: Cfg)
    returns (stopped: bool, fi: int, si: int, m: int, aii: int, c: Character, sp: int, mi: int, caps: Captures)
    requires 1 <= fi0 <= |f|
    requires Apart(fstack, mstack, sstack, mistack)
    requires Holds(f, x, fi0, si0, m0, aii0, c0, sp0, mi0, caps0, fstack[..], mstack[..], sstack[..], mistack[..])
    requires !Take(f, s, siIn, x).Fault?
    modifies fstack, mstack, sstack, mistack
    ensures Leaves(f, Take(f, s, siIn, x), stopped, fi, si, m, aii, c, sp, mi, caps,
                   fstack[..], mstack[..], sstack[..], mistack[..])
  {
    PlainItems(f, s, siIn, x);
    hide Take;
    stopped, fi, si, m, aii, c, sp, mi, caps := false, fi0, si0, m0, aii0, c0, sp0, mi0, caps0;
    var b := f[fi - 1];
    if b in {'^', '$', '*', '?'} {
      fi, si, m := TakeMark(f, s, siIn, fi, si, m, sp, fstack, mstack, sstack, x);
    } else if b in {'(', ')', '|'} {
      stopped, si, m, aii, sp, mi, caps :=
        TakeGroup(f, s, siIn, fi, si, m, aii, sp, mi, caps, fstack, mstack, sstack, mistack, x);
    } else if b == NUL {
      aii := aii + 1;
      stopped := true;
    } else if b == '{' || b == '}' {
    } else if b == '\\' && fi == |f| {
      stopped := true;
    } else {
      fi, si, m, c := TakeAtom(f, s, siIn, fi, si, m, c, sp, fstack, mstack, sstack, x);
    }
  }

  lemma PlainItems(f: Text, s: Text, siIn: int, x: Cfg)
    requires 1 <= x.fi <= |f|
    ensures var b := f[x.fi - 1];
            (b == NUL ==> Take(f, s, siIn, x) == Done(x.m, x.aii + 1, x.si, x.caps)) &&
            (b == '{' || b == '}' ==> Take(f, s, siIn, x) == Going(x)) &&
            (b == '\\' && x.fi == |f| ==> Take(f, s, siIn, x) == Done(x.m, x.aii, x.si, x.caps))
  {}

  method NewStack(a: int, b: int) returns (stack: array<int>)
    ensures fresh(stack) && stack[..] == Blank(a, b)
  {
    stack := new int[STACK_SIZE](_ => UNSET);
    stack[0], stack[1] := a, b;
  }

  /** The loop, on any pattern and subject for which it ends. */
  method Interpret(f: Text, s: Text, siIn: int, ghost turns: nat)
    returns (m: int, aii: int, si: int, caps: Captures)
    requires EndsIn(f, s, siIn, turns)
    ensures Turns(f, s, siIn, Start(siIn), turns) == Done(m, aii, si, caps)
  {
    hide Take, Blank, VerdictOf;
    var fstack := NewStack(1, 1);
    var mstack := NewStack(1, 1);
    var sstack := NewStack(siIn, siIn);
    var mistack := NewStack(0, 0);
    var fi, sp, mi, c := 0, 1, 0, NUL;
    si, m, aii, caps := siIn, 1, 0, NO_CAPTURES;
    ghost var x, n := Start(siIn), turns;
    while true
      invariant Holds(f, x, fi, si, m, aii, c, sp, mi, caps, fstack[..], mstack[..], sstack[..], mistack[..])
      invariant Turns(f, s, siIn, x, n) == Turns(f, s, siIn, Start(siIn), turns)
      decreases n
    {
      fi := fi + 1;
      if fi > |f| {
        break;
      }
      var stopped;
      stopped, fi, si, m, aii, c, sp, mi, caps :=
        TakeItem(f, s, siIn, fi, si, m, aii, c, sp, mi, caps, fstack, mstack, sstack, mistack, x.(fi := fi));
      if stopped {
        break;
      }
      x, n := Turn(f, s, siIn, x).x, n - 1;
    }
  }

  /** Matches `s` from s(si0) against the pattern `f`; `si` is the next unmatched
      position and `caps` what the groups have captured. On a well-formed pattern it
      always ends. */
  method RegMatch(si0: int, s: Text, f: Text) returns (ai: int, si: int, caps: Captures)
    requires Ends(f, s, si0)
    ensures Reports(f, s, si0, (ai, si, caps))
    ensures si0 >= 1 && WellFormed(f, 0) ==> (ai, si - 1, caps) == Report(f, s, si0 - 1)
  {
    hide Turns, Report, WellFormed;
    ghost var turns: nat :| EndsIn(f, s, si0, turns);
    var aii, m;
    m, aii, si, caps := Interpret(f, s, si0, turns);
    if m == 1 || m == -1 {
      ai := aii;
    } else {
      ai, si := 0, si0;
    }
    assert Reports(f, s, si0, (ai, si, caps));
    IsReport(f, s, si0, (ai, si, caps));
  }

  lemma IsReport(f: Text, s: Text, si0: int, v: Verdict)
    requires Reports(f, s, si0, v)
    ensures si0 >= 1 && WellFormed(f, 0) ==> (v.0, v.1 - 1, v.2) == Report(f, s, si0 - 1)
  {
    hide Reports, Report, WellFormed;
    if si0 >= 1 && WellFormed(f, 0) {
      ReportsMeaning(f, s, si0);
      var r := Report(f, s, si0 - 1);
      ReportsOnce(f, s, si0, v, (r.0, r.1 + 1, r.2));
    }
  }
}
