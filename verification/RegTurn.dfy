/** The loop of `regmatch` in regexp_h.vhdl, one turn at a time, for every pattern and
    subject: groups, runs that never end and runs that stop the simulation with an
    error. Positions are counted from 1, as in the source. */
module RegTurn {
  import opened Pattern

  const STACK_SIZE := 15

  type Stack = s: seq<int> | |s| == STACK_SIZE witness seq(STACK_SIZE, _ => 0)

  // A variable that has not been assigned has the leftmost value of its type.
  const UNSET := -0x8000_0000

  /** The variables of the loop: the match flag `m` is 1 for true, 0 for false, -1 for
      skipping after success and -2 after failure; `c` is the last character read of
      a class and `mi` the number of groups opened. The stacks hold, for each level of
      groups, a pattern position, a flag, a subject position and a group's number. */
  datatype Cfg = Cfg(
    fi: int, si: int, m: int, aii: int, c: Character, sp: int, mi: int,
    fstack: Stack, mstack: Stack, sstack: Stack, mistack: Stack, caps: Captures)

  /** After a turn: another follows, or the loop is left, or the simulation stops. */
  datatype Turned = Going(x: Cfg) | Done(m: int, aii: int, si: int, caps: Captures) | Fault

  function Blank(a: int, b: int): Stack {
    [a, b] + seq(STACK_SIZE - 2, _ => UNSET)
  }

  function Start(si: int): Cfg {
    Cfg(0, si, 1, 0, NUL, 1, 0, Blank(1, 1), Blank(1, 1), Blank(si, si), Blank(0, 0), NO_CAPTURES)
  }

  predicate OnStack(level: int) {
    1 <= level <= STACK_SIZE
  }

  function MFalse(m: int): int {
    if m == 1 then 0 else if m == 0 then -2 else m
  }

  /** An atom whose class is `cls`, read up to f(x.fi); a repetition starts again from
      `restart`. */
  function Try(s: Text, x: Cfg, cls: Class, restart: int): Turned {
    if x.m == 0 then Going(x.(m := -2))
    else if x.m != 1 then Going(x)
    else if !OnStack(x.sp + 1) || x.si < 1 then Fault
    else
      var hit := Hit(cls, s, x.si - 1);
      Going(x.(si := if hit then x.si + 1 else x.si, m := if hit then 1 else 0,
               fstack := x.fstack[x.sp := restart], mstack := x.mstack[x.sp := 1],
               sstack := x.sstack[x.sp := x.si]))
  }

  /** `*` and `?` take back a failure. */
  function TakeBack(x: Cfg): Turned {
    if x.m != 0 then Going(x)
    else if !OnStack(x.sp + 1) then Fault
    else Going(x.(m := x.mstack[x.sp], si := x.sstack[x.sp]))
  }

  /** `*` goes back to its atom, or group, after a match. */
  function Again(x: Cfg): Turned {
    if x.m != 1 then TakeBack(x)
    else if !OnStack(x.sp + 1) || x.fstack[x.sp] == UNSET then Fault
    else Going(x.(fi := x.fstack[x.sp] - 1))
  }

  /** A capture is copied from the subject at a closing parenthesis and at a bar. */
  predicate CopyFails(x: Cfg) {
    x.m == 1 && (!OnStack(x.sp) || x.sstack[x.sp - 1] < 1)
  }

  /** strcpyij: s(i) to s(j), or to a NUL, as far as there is room. */
  function CopyText(s: Text, i: int, j: int, room: nat): (t: Text)
    ensures |t| <= room
    decreases room
  {
    if room == 0 || i < 1 || i > |s| || s[i - 1] == NUL || i > j then []
    else [s[i - 1]] + CopyText(s, i + 1, j, room - 1)
  }

  function Copied(s: Text, x: Cfg): Cfg {
    if x.m != 1 || !OnStack(x.sp) then x
    else
      var text := CopyText(s, x.sstack[x.sp - 1], x.si - 1, ROOM);
      x.(caps := Capture(x.caps, x.mistack[x.sp - 1], text))
  }

  function Open(x: Cfg): Turned {
    if !OnStack(x.sp + 1) then Fault
    else
      Going(x.(sp := x.sp + 1, mi := x.mi + 1, fstack := x.fstack[x.sp := x.fi - 1],
               mstack := x.mstack[x.sp := x.m], sstack := x.sstack[x.sp := x.si],
               mistack := x.mistack[x.sp := x.mi + 1]))
  }

  function Close(s: Text, x: Cfg): Turned {
    var y := Copied(s, x).(sp := x.sp - 1);
    if CopyFails(x) then Fault
    else if x.m == -1 then Going(y.(m := 1))
    else if x.m != 0 && x.m != -2 then Going(y)
    else if !OnStack(x.sp - 1) then Fault
    else Going(y.(m := 0, si := x.sstack[x.sp - 2]))
  }

  function Bar(s: Text, x: Cfg): Turned {
    var y := if x.sp == 1 then Copied(s, x).(mi := 0, aii := x.aii + 1) else Copied(s, x);
    if CopyFails(x) then Fault
    else if x.sp == 1 && x.m == 1 then Done(1, y.aii, y.si, y.caps)
    else if x.m == 1 then Going(y.(m := -1))
    else if x.m != 0 && x.m != -2 then Going(y)
    else if !OnStack(x.sp) then Fault
    else Going(y.(m := x.mstack[x.sp - 1], si := x.sstack[x.sp - 1]))
  }

  /** What stands at f(x.fi). */
  function Take(f: Text, s: Text, siIn: int, x: Cfg): Turned
    requires 1 <= x.fi <= |f|
  {
    var p := x.fi - 1;
    match f[p]
    case '^' => Going(if x.si != siIn then x.(m := MFalse(x.m)) else x)
    case '$' =>
      if x.si < 1 then Fault
      else Going(if AtEnd(s, x.si - 1) then x else x.(m := MFalse(x.m)))
    case '*' => Again(x)
    case '?' => TakeBack(x)
    case '[' =>
      var cls := Class(Negated(f, p), ScanClass(f, p, x.c).ranges);
      Try(s, x.(fi := AtomEnd(f, p), c := ']'), cls, x.fi)
    case '(' => Open(x)
    case ')' => Close(s, x)
    case '{' => Going(x)
    case '}' => Going(x)
    case '|' => Bar(s, x)
    case '\\' =>
      if p + 1 >= |f| then Done(x.m, x.aii, x.si, x.caps)
      else Try(s, x.(fi := x.fi + 1), Single(f[p + 1]), x.fi + 1)
    case '.' => Try(s, x, ANY, x.fi)
    case c => if c == NUL then Done(x.m, x.aii + 1, x.si, x.caps) else Try(s, x, Single(c), x.fi)
  }

  function Turn(f: Text, s: Text, siIn: int, x: Cfg): Turned {
    if x.fi + 1 > |f| then Done(x.m, x.aii, x.si, x.caps)
    else if x.fi + 1 < 1 then Fault
    else Take(f, s, siIn, x.(fi := x.fi + 1))
  }

  /** The next `n` turns. */
  function Turns(f: Text, s: Text, siIn: int, x: Cfg, n: nat): Turned
    decreases n
  {
    if n == 0 then Going(x)
    else
      match Turn(f, s, siIn, x)
      case Going(y) => Turns(f, s, siIn, y, n - 1)
      case r => r
  }

  /** What is reported when the loop is left: the alternative's number, the next
      position, and the texts captured. */
  type Verdict = (int, int, Captures)

  function VerdictOf(siIn: int, r: Turned): Verdict
    requires r.Done?
  {
    if r.m == 1 || r.m == -1 then (r.aii, r.si, r.caps) else (0, siIn, r.caps)
  }

  /** `regmatch` ends after `n` turns, in no error. */
  predicate EndsIn(f: Text, s: Text, siIn: int, n: nat) {
    Turns(f, s, siIn, Start(siIn), n).Done?
  }

  /** It ends, and reports `verdict`. */
  ghost predicate Reports(f: Text, s: Text, siIn: int, verdict: Verdict) {
    exists n: nat :: EndsIn(f, s, siIn, n) && verdict == VerdictOf(siIn, Turns(f, s, siIn, Start(siIn), n))
  }

  ghost predicate Ends(f: Text, s: Text, siIn: int) {
    exists n: nat :: EndsIn(f, s, siIn, n)
  }

  ghost predicate NeverEnds(f: Text, s: Text, siIn: int) {
    forall n: nat :: Turns(f, s, siIn, Start(siIn), n).Going?
  }

  lemma {:induction false} TurnsAdd(f: Text, s: Text, siIn: int, x: Cfg, j: nat, k: nat)
    ensures Turns(f, s, siIn, x, j + k) ==
            match Turns(f, s, siIn, x, j)
            case Going(y) => Turns(f, s, siIn, y, k)
            case r => r
    decreases j
  {
    hide Turn;
    if j == 0 {
    } else {
      match Turn(f, s, siIn, x)
      case Going(y) => TurnsAdd(f, s, siIn, y, j - 1, k);
      case _ =>
    }
  }

  lemma TwoTurns(f: Text, s: Text, siIn: int, x: Cfg, y: Cfg)
    requires Turn(f, s, siIn, x) == Going(y)
    ensures Turns(f, s, siIn, x, 2) == Turn(f, s, siIn, y)
    ensures Turns(f, s, siIn, x, 1) == Going(y)
  {
    hide Turn;
    assert Turns(f, s, siIn, y, 1) == Turn(f, s, siIn, y) by {
      SingleTurn(f, s, siIn, y);
    }
    TurnsAdd(f, s, siIn, x, 1, 1);
    SingleTurn(f, s, siIn, x);
  }

  lemma SingleTurn(f: Text, s: Text, siIn: int, x: Cfg)
    ensures Turns(f, s, siIn, x, 1) == Turn(f, s, siIn, x)
  {
    hide Turn;
    match Turn(f, s, siIn, x)
    case Going(y) => assert Turns(f, s, siIn, y, 0) == Going(y);
    case _ =>
  }

  /** There is only one way to end. */
  lemma ReportsOnce(f: Text, s: Text, siIn: int, v: Verdict, w: Verdict)
    requires Reports(f, s, siIn, v) && Reports(f, s, siIn, w)
    ensures v == w
  {
    hide Turns;
    var x := Start(siIn);
    var j: nat :| EndsIn(f, s, siIn, j) && v == VerdictOf(siIn, Turns(f, s, siIn, x, j));
    var k: nat :| EndsIn(f, s, siIn, k) && w == VerdictOf(siIn, Turns(f, s, siIn, x, k));
    if j <= k {
      TurnsAdd(f, s, siIn, x, j, k - j);
    } else {
      TurnsAdd(f, s, siIn, x, k, j - k);
    }
  }

  /** A configuration that comes back keeps coming back. */
  lemma {:induction false} Recurs(f: Text, s: Text, siIn: int, x: Cfg, period: nat, n: nat)
    requires period >= 1 && Turns(f, s, siIn, x, period) == Going(x)
    ensures Turns(f, s, siIn, x, n).Going?
  {
    hide Turns;
    if n < period {
      TurnsAdd(f, s, siIn, x, n, period - n);
    } else {
      Recurs(f, s, siIn, x, period, n - period);
      TurnsAdd(f, s, siIn, x, period, n - period);
    }
  }

  /** A run that reaches such a configuration never ends. */
  lemma CycleNeverEnds(f: Text, s: Text, siIn: int, before: nat, x: Cfg, period: nat)
    requires Turns(f, s, siIn, Start(siIn), before) == Going(x)
    requires period >= 1 && Turns(f, s, siIn, x, period) == Going(x)
    ensures NeverEnds(f, s, siIn) && !Ends(f, s, siIn)
  {
    hide Turns;
    forall n: nat
      ensures Turns(f, s, siIn, Start(siIn), n).Going?
    {
      if n < before {
        TurnsAdd(f, s, siIn, Start(siIn), n, before - n);
      } else {
        TurnsAdd(f, s, siIn, Start(siIn), before, n - before);
        Recurs(f, s, siIn, x, period, n - before);
      }
    }
  }

  /** A run that stops with an error reports nothing. */
  lemma FaultNeverEnds(f: Text, s: Text, siIn: int, n: nat)
    requires Turns(f, s, siIn, Start(siIn), n).Fault?
    ensures !Ends(f, s, siIn)
  {
    hide Turns;
    var x := Start(siIn);
    forall k: nat
      ensures !EndsIn(f, s, siIn, k)
    {
      if k <= n {
        TurnsAdd(f, s, siIn, x, k, n - k);
      } else {
        TurnsAdd(f, s, siIn, x, n, k - n);
      }
    }
  }
}
