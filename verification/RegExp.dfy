/** What a pattern of regexp_h.vhdl means: its text as alternatives of items, and
    the ordered, possessive matching of items against a subject. Positions are
    counted from 0 here. */
module Pattern {
  import opened Wrappers

  type Character = c: char | c as int < 256 witness 'a'

  type Text = seq<Character>

  const NUL: Character := '\0'

  datatype Range = Range(lo: Character, hi: Character)

  /** A set of characters: those in some range, or those in none. */
  datatype Class = Class(negated: bool, ranges: seq<Range>)

  predicate Listed(ranges: seq<Range>, c: Character) {
    exists k :: 0 <= k < |ranges| && ranges[k].lo <= c <= ranges[k].hi
  }

  predicate In(cls: Class, c: Character) {
    Listed(cls.ranges, c) != cls.negated
  }

  /** How often an atom may match; a repeated atom is matched again by `again`. */
  datatype Repeat = One | Optional | Star(again: Class)

  datatype Item =
    | Nothing
    | LineStart
    | LineEnd
    | Atom(cls: Class, repeat: Repeat)
    | Group(number: nat, alts: seq<Alternative>, optional: bool)

  datatype Alternative = Alternative(items: seq<Item>)

  predicate Hit(cls: Class, s: Text, i: nat) {
    i < |s| && s[i] != NUL && In(cls, s[i])
  }

  predicate AtEnd(s: Text, i: nat) {
    if i < |s| then s[i] == NUL else i == |s|
  }

  function Left(s: Text, i: nat): nat {
    if i < |s| then |s| - i else 0
  }

  /** The texts of the first four groups, as last captured. */
  type Captures = c: seq<Option<Text>> | |c| == 4 witness [None, None, None, None]

  const NO_CAPTURES: Captures := [None, None, None, None]

  // A captured text is held in a string of 80 characters, the last one a NUL.
  const ROOM := 79

  function Clip(t: Text): Text {
    if |t| > ROOM then t[..ROOM] else t
  }

  function Capture(caps: Captures, number: int, t: Text): Captures {
    if 1 <= number <= 4 then caps[number - 1 := Some(t)] else caps
  }

  function Span(s: Text, i: nat, e: nat): Text {
    if i <= e <= |s| then s[i..e] else []
  }

  /** Where a match ends, if there is one, and what has been captured on the way. */
  datatype Outcome = Outcome(end: Option<nat>, caps: Captures)

  /** Matching all of `items` from `i`. What an item takes it keeps; what a group
      captures stays captured, even if the match then fails. */
  function Match(items: seq<Item>, s: Text, i: nat, start: nat, caps: Captures): (r: Outcome)
    ensures r.end.Some? ==> i <= r.end.value
    decreases Left(s, i), items
  {
    if items == [] then Outcome(Some(i), caps) else
    var rest := items[1..];
    match items[0]
    case Nothing => Match(rest, s, i, start, caps)
    case LineStart => if i == start then Match(rest, s, i, start, caps) else Outcome(None, caps)
    case LineEnd => if AtEnd(s, i) then Match(rest, s, i, start, caps) else Outcome(None, caps)
    case Atom(cls, One) => if Hit(cls, s, i) then Match(rest, s, i + 1, start, caps) else Outcome(None, caps)
    case Atom(cls, Optional) => Match(rest, s, if Hit(cls, s, i) then i + 1 else i, start, caps)
    case Atom(cls, Star(again)) =>
      if Hit(cls, s, i) then Match([Atom(again, Star(again))] + rest, s, i + 1, start, caps)
      else Match(rest, s, i, start, caps)
    case Group(number, alts, optional) =>
      var r := Choose(alts, number, s, i, start, caps);
      match r.end
      case Some(e) => Match(rest, s, e, start, r.caps)
      case None => if optional then Match(rest, s, i, start, r.caps) else r
  }

  /** The end of the longest run of hits from `i`. */
  function RunEnd(cls: Class, s: Text, i: nat): (e: nat)
    ensures i <= e && !Hit(cls, s, e)
    ensures forall k :: i <= k < e ==> Hit(cls, s, k)
    decreases Left(s, i)
  {
    if Hit(cls, s, i) then RunEnd(cls, s, i + 1) else i
  }

  /** A group takes the first of its alternatives that matches at `i`. */
  function Choose(alts: seq<Alternative>, number: nat, s: Text, i: nat, start: nat, caps: Captures): (r: Outcome)
    ensures r.end.Some? ==> i <= r.end.value
    decreases Left(s, i), alts
  {
    if alts == [] then Outcome(None, caps) else
    var r := Match(alts[0].items, s, i, start, caps);
    match r.end
    case Some(e) => Outcome(Some(e), Capture(r.caps, number, Clip(Span(s, i, e))))
    case None => Choose(alts[1..], number, s, i, start, r.caps)
  }

  /** An alternative's number, counted from 0, where its match ends, and what has been
      captured. */
  datatype Found = Found(at: Option<(nat, nat)>, caps: Captures)

  /** The first alternative that matches at `start`. */
  function FirstMatch(alts: seq<Alternative>, s: Text, start: nat, caps: Captures): Found {
    if alts == [] then Found(None, caps) else
    var r := Match(alts[0].items, s, start, start, caps);
    match r.end
    case Some(e) => Found(Some((0, e)), r.caps)
    case None => OneLater(FirstMatch(alts[1..], s, start, r.caps))
  }

  function OneLater(r: Found): Found {
    match r.at
    case Some((k, e)) => Found(Some((k + 1, e)), r.caps)
    case None => r
  }

  // ---- The text of a bracket class ----

  function Escaped(c: Character): Character {
    match c
    case 'a' => 7 as char
    case 'b' => 8 as char
    case 'f' => 12 as char
    case 'n' => 10 as char
    case 'r' => 13 as char
    case 't' => 9 as char
    case 'v' => 11 as char
    case _ => c
  }

  datatype Scanned = Scanned(ranges: seq<Range>, end: nat) {
    function Prepend(r: Range): Scanned {
      Scanned([r] + ranges, end)
    }
  }

  /** The ranges listed from `p` on and the position of the closing bracket, or of
      the end of the text. A bracket listed first is an ordinary character;
      `previous` is the character a range may start from. */
  function Scan(f: Text, p: nat, first: bool, previous: Character): (r: Scanned)
    ensures r.end >= p || r.end == |f|
    decreases |f| - p
  {
    if p >= |f| then Scanned([], |f|) else
    var c := f[p];
    if c == '\\' then
      if p + 1 >= |f| then Scanned([], |f|)
      else Scan(f, p + 2, false, c).Prepend(Range(Escaped(f[p + 1]), Escaped(f[p + 1])))
    else if c == ']' && !first then Scanned([], p)
    else if c == '-' then
      if p + 1 >= |f| then Scanned([], |f|)
      else if f[p + 1] == ']' then Scan(f, p + 1, false, c).Prepend(Range(c, c))
      else Scan(f, p + 2, false, c).Prepend(Range(previous, f[p + 1]))
    else Scan(f, p + 1, false, c).Prepend(Range(c, c))
  }

  predicate Negated(f: Text, p: nat) {
    p + 1 < |f| && f[p + 1] == '^'
  }

  /** The class whose opening bracket is at `p`. */
  function ScanClass(f: Text, p: nat, previous: Character): Scanned {
    if Negated(f, p) then Scan(f, p + 2, true, '^') else Scan(f, p + 1, true, previous)
  }

  /** What a range that begins a class starts from: the last character read of a
      class, which is its closing bracket, or NUL if none has been read. */
  function Previous(read: bool): Character {
    if read then ']' else NUL
  }

  /** The class at `p`, `read` telling whether a class has been read before. */
  function ClassAt(f: Text, p: nat, read: bool): Class {
    Class(Negated(f, p), ScanClass(f, p, Previous(read)).ranges)
  }

  /** Where a class ends does not depend on what was read before it. */
  lemma SameEnd(f: Text, p: nat, c: Character, d: Character)
    ensures ScanClass(f, p, c).end == ScanClass(f, p, d).end
  {}

  // ---- The text of a pattern ----

  /** A backslash with nothing after it. */
  predicate Dangling(f: Text, p: nat) {
    p + 1 == |f| && f[p] == '\\'
  }

  /** The end of an alternative. */
  predicate AltEnd(f: Text, p: nat) {
    p >= |f| || f[p] == '|' || f[p] == ')' || f[p] == NUL || Dangling(f, p)
  }

  function Single(c: Character): Class {
    Class(false, [Range(c, c)])
  }

  const ANY := Class(true, [])

  predicate IsAtom(f: Text, p: nat)
    requires p < |f|
  {
    f[p] !in {'^', '$', '{', '}', '('} && !Dangling(f, p)
  }

  function AtomEnd(f: Text, p: nat): (q: nat)
    requires p < |f|
    ensures q > p
  {
    if f[p] == '[' then ScanClass(f, p, NUL).end + 1
    else if f[p] == '\\' then p + 2
    else p + 1
  }

  predicate Brace(c: Character) {
    c == '{' || c == '}'
  }

  /** Past braces, which mean nothing, even between an atom and its repetition. */
  function SkipBraces(f: Text, p: nat): (q: nat)
    ensures q >= p && (q < |f| ==> !Brace(f[q]))
    ensures forall k :: p <= k < q && k < |f| ==> Brace(f[k])
    decreases |f| - p
  {
    if p < |f| && Brace(f[p]) then SkipBraces(f, p + 1) else p
  }

  /** Past braces and past options, which mean nothing after a repetition. */
  function SkipIdle(f: Text, p: nat): (q: nat)
    ensures q >= p
    decreases |f| - p
  {
    if p < |f| && (Brace(f[p]) || f[p] == '?') then SkipIdle(f, p + 1) else p
  }

  /** Where the repetition of the atom at `p` stands, if it has one. */
  function SuffixAt(f: Text, p: nat): (q: nat)
    requires p < |f|
    ensures q > p
  {
    SkipBraces(f, AtomEnd(f, p))
  }

  predicate AtSuffix(f: Text, q: nat) {
    q < |f| && (f[q] == '*' || f[q] == '?')
  }

  /** A group that ends at `e` is followed by a `?`. */
  predicate MayMiss(f: Text, e: nat) {
    SkipBraces(f, e) < |f| && f[SkipBraces(f, e)] == '?'
  }

  /** Where the item at `p` ends. */
  function After(f: Text, p: nat): (q: nat)
    requires p < |f|
    ensures q > p
    decreases |f| - p, 0
  {
    if f[p] == '(' then
      var e := GroupEnd(f, p + 1);
      if MayMiss(f, e) then SkipBraces(f, e) + 1 else e
    else if !IsAtom(f, p) then p + 1
    else if AtSuffix(f, SuffixAt(f, p)) then SkipIdle(f, SuffixAt(f, p) + 1)
    else AtomEnd(f, p)
  }

  function EndFrom(f: Text, p: nat): (q: nat)
    ensures q >= p && AltEnd(f, q)
    decreases |f| - p, 1
  {
    if AltEnd(f, p) then p else EndFrom(f, After(f, p))
  }

  /** Where the group ends that has an alternative at `p`. */
  function GroupEnd(f: Text, p: nat): (q: nat)
    ensures q >= p
    decreases |f| - p, 2
  {
    var q := EndFrom(f, p);
    if q < |f| && f[q] == '|' then GroupEnd(f, q + 1)
    else if q < |f| && f[q] == ')' then q + 1
    else q
  }

  /** What has been passed in a pattern: whether a class, and how many groups of the
      alternative at hand. */
  datatype Seen = Seen(read: bool, groups: nat)

  const NOTHING_SEEN := Seen(false, 0)

  /** What has been passed after the item at `p`. */
  function SeenBy(f: Text, p: nat, seen: Seen): Seen
    requires p < |f|
    decreases |f| - p, 0
  {
    if f[p] == '[' then seen.(read := true)
    else if f[p] == '(' then SeenGroup(f, p + 1, seen.(groups := seen.groups + 1))
    else seen
  }

  function SeenFrom(f: Text, p: nat, seen: Seen): Seen
    decreases |f| - p, 1
  {
    if AltEnd(f, p) then seen else SeenFrom(f, After(f, p), SeenBy(f, p, seen))
  }

  function SeenGroup(f: Text, p: nat, seen: Seen): Seen
    decreases |f| - p, 2
  {
    var q := EndFrom(f, p);
    if q < |f| && f[q] == '|' then SeenGroup(f, q + 1, SeenFrom(f, p, seen)) else SeenFrom(f, p, seen)
  }

  /** The atom `cls` with whatever repetition stands at `q`. */
  function Suffixed(f: Text, cls: Class, again: Class, q: nat): Item {
    if q < |f| && f[q] == '*' then Atom(cls, Star(again))
    else if q < |f| && f[q] == '?' then Atom(cls, Optional)
    else Atom(cls, One)
  }

  /** The class of the atom at `p`, and that of its repetition: a repeated class is read
      again, after itself, and a repeated escape as if it were not escaped. */
  function AtomClass(f: Text, p: nat, read: bool): Class
    requires p < |f| && IsAtom(f, p)
  {
    match f[p]
    case '[' => ClassAt(f, p, read)
    case '.' => ANY
    case '\\' => Single(f[p + 1])
    case c => Single(c)
  }

  /** Where a repetition of the atom at `p` starts again. */
  function Restart(f: Text, p: nat): nat
    requires p < |f|
  {
    if f[p] == '\\' then p + 1 else p
  }

  function AgainClass(f: Text, p: nat): Class
    requires p < |f| && IsAtom(f, p)
  {
    if f[p] == '[' then ClassAt(f, p, true)
    else if f[Restart(f, p)] == '.' then ANY
    else Single(f[Restart(f, p)])
  }

  /** The item at `p`. */
  function ItemAt(f: Text, p: nat, seen: Seen): Item
    requires p < |f|
    decreases |f| - p, 0
  {
    if f[p] == '(' then
      var number := seen.groups + 1;
      Group(number, GroupAlts(f, p + 1, seen.(groups := number)), MayMiss(f, GroupEnd(f, p + 1)))
    else if IsAtom(f, p) then Suffixed(f, AtomClass(f, p, seen.read), AgainClass(f, p), SuffixAt(f, p))
    else
      match f[p]
      case '^' => LineStart
      case '$' => LineEnd
      case _ => Nothing
  }

  /** The items of the alternative from `p` on. */
  function Items(f: Text, p: nat, seen: Seen): seq<Item>
    decreases |f| - p, 1
  {
    if AltEnd(f, p) then [] else [ItemAt(f, p, seen)] + Items(f, After(f, p), SeenBy(f, p, seen))
  }

  /** The alternatives of a group from `p` on. */
  function GroupAlts(f: Text, p: nat, seen: Seen): (a: seq<Alternative>)
    ensures a != []
    decreases |f| - p, 2
  {
    var q := EndFrom(f, p);
    [Alternative(Items(f, p, seen))] +
    if q < |f| && f[q] == '|' then GroupAlts(f, q + 1, SeenFrom(f, p, seen)) else []
  }

  /** The alternatives of the pattern from `p` on; a NUL ends it. Groups are counted
      anew in each. */
  function Alts(f: Text, p: nat, seen: Seen): (a: seq<Alternative>)
    ensures a != []
    decreases |f| - p
  {
    var q := EndFrom(f, p);
    [Alternative(Items(f, p, seen))] +
    if q < |f| && f[q] == '|' then Alts(f, q + 1, SeenFrom(f, p, seen).(groups := 0)) else []
  }

  // ---- Which patterns have a meaning ----

  /** The characters that, unescaped, do not stand for themselves or `.`. */
  const SPECIAL: set<Character> := {'^', '$', '*', '?', '[', '(', ')', '{', '}', '|', '\\'}

  const DEPTH := 14

  /** At level `level`, 1 being outside groups: nothing starred but an atom, no option
      but of an atom or a group, no starred escape of a character that is special
      unescaped, but `.`, and groups that are closed, nested within limits and, unless
      `nest`, not there. */
  predicate ItemOk(f: Text, p: nat, level: nat, nest: bool)
    requires p < |f|
    decreases |f| - p, 0
  {
    if f[p] == '(' then
      nest && level < DEPTH && GroupOk(f, p + 1, level + 1, nest) &&
      var q := SkipBraces(f, GroupEnd(f, p + 1));
      q < |f| ==> f[q] != '*'
    else
      f[p] !in {'*', '?'} &&
      (f[p] == '\\' && p + 1 < |f| && f[p + 1] in SPECIAL ==>
         SuffixAt(f, p) >= |f| || f[SuffixAt(f, p)] != '*')
  }

  predicate AltOk(f: Text, p: nat, level: nat, nest: bool)
    decreases |f| - p, 1
  {
    AltEnd(f, p) || (ItemOk(f, p, level, nest) && AltOk(f, After(f, p), level, nest))
  }

  /** A group inside a later alternative of a group would go on matching after an
      earlier one has matched. */
  predicate GroupOk(f: Text, p: nat, level: nat, nest: bool)
    decreases |f| - p, 2
  {
    var q := EndFrom(f, p);
    AltOk(f, p, level, nest) && q < |f| && (f[q] == ')' || (f[q] == '|' && GroupOk(f, q + 1, level, false)))
  }

  predicate WellFormed(f: Text, p: nat)
    decreases |f| - p
  {
    var q := EndFrom(f, p);
    AltOk(f, p, 1, true) && (q < |f| && f[q] != NUL && !Dangling(f, q) ==> f[q] == '|' && WellFormed(f, q + 1))
  }

  /** Whether the pattern is ended by a NUL, as a C string is. */
  predicate Terminated(f: Text, p: nat)
    decreases |f| - p
  {
    var q := EndFrom(f, p);
    q < |f| && if f[q] == '|' then Terminated(f, q + 1) else f[q] == NUL
  }

  /** What `regmatch` reports: the number of the first alternative that matches,
      counted from 1, where it ends, and the texts captured; or 0 and the start. The
      last alternative of a pattern not ended by NUL is given the number of the one
      before it. */
  function Report(f: Text, s: Text, start: nat): (nat, nat, Captures) {
    var alts := Alts(f, 0, NOTHING_SEEN);
    var r := FirstMatch(alts, s, start, NO_CAPTURES);
    match r.at
    case None => (0, start, r.caps)
    case Some((k, e)) => (if k + 1 == |alts| && !Terminated(f, 0) then k else k + 1, e, r.caps)
  }
}
