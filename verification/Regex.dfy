/**
 * The part of Go's regular expressions (RE2 syntax, flag "i") that compiled domain patterns use:
 * a reader from text to a program, and what the program matches.
 */
module Regex {
  import opened Wrappers
  import opened Names

  datatype Range = Range(lo: char, hi: char)

  datatype Atom =
    | Literal(c: char)
    | AnyChar
    | Class(negated: bool, ranges: seq<Range>)

  datatype Node = Begin | End | One(atom: Atom) | Many(atom: Atom)

  // ---- Matching ----

  function UpperChar(c: char): char {
    if 'a' <= c <= 'z' then (c as int - 32) as char else c
  }

  predicate InRanges(ranges: seq<Range>, c: char) {
    exists i :: 0 <= i < |ranges| && ranges[i].lo <= c <= ranges[i].hi
  }

  /** Some case variant of `c` lies in the ranges. */
  predicate InRangesFolded(ranges: seq<Range>, c: char) {
    InRanges(ranges, c) || InRanges(ranges, LowerChar(c)) || InRanges(ranges, UpperChar(c))
  }

  predicate Accepts(a: Atom, c: char) {
    match a
    case Literal(l) => LowerChar(l) == LowerChar(c)
    case AnyChar => c != '\n'
    case Class(negated, ranges) => InRangesFolded(ranges, c) != negated
  }

  /** The program can match some stretch of `s` that starts at `i`. */
  predicate MatchesAt(p: seq<Node>, s: string, i: nat)
    requires i <= |s|
    decreases |p|, |s| - i
  {
    if p == [] then true
    else
      match p[0]
      case Begin => i == 0 && MatchesAt(p[1..], s, i)
      case End => i == |s| && MatchesAt(p[1..], s, i)
      case One(a) => i < |s| && Accepts(a, s[i]) && MatchesAt(p[1..], s, i + 1)
      case Many(a) =>
        MatchesAt(p[1..], s, i) || (i < |s| && Accepts(a, s[i]) && MatchesAt(p, s, i + 1))
  }

  /** regexp.MatchString: a match anywhere. */
  predicate MatchString(p: seq<Node>, s: string) {
    exists i :: 0 <= i <= |s| && MatchesAt(p, s, i)
  }

  // ---- Reading ----

  const SPECIAL := "\\.+*?()|[]{}^$"

  /** regexp.QuoteMeta of one character. */
  function Quote(c: char): string {
    if c in SPECIAL then ['\\', c] else [c]
  }

  datatype Read<T> = Read(value: T, rest: string)

  /** The ranges of a bracket expression, up to and including its closing bracket. */
  function ReadRanges(t: string, first: bool): (r: Option<Read<seq<Range>>>)
    ensures r.Some? ==> |r.value.rest| < |t|
    decreases |t|
  {
    if t == "" || t[0] == '\\' || t[0] == '[' then None
    else if t[0] == ']' && !first then Some(Read([], t[1..]))
    else if |t| >= 3 && t[1] == '-' && t[2] != ']' then
      if t[2] == '\\' || t[2] == '[' || t[2] < t[0] then None
      else
        match ReadRanges(t[3..], false)
        case None => None
        case Some(r) => Some(Read([Range(t[0], t[2])] + r.value, r.rest))
    else
      match ReadRanges(t[1..], false)
      case None => None
      case Some(r) => Some(Read([Range(t[0], t[0])] + r.value, r.rest))
  }

  function ReadAtom(t: string): (r: Option<Read<Atom>>)
    requires t != ""
    ensures r.Some? ==> |r.value.rest| < |t|
  {
    if t[0] == '.' then Some(Read(AnyChar, t[1..]))
    else if t[0] == '\\' then
      if |t| > 1 && t[1] in SPECIAL then Some(Read(Literal(t[1]), t[2..])) else None
    else if t[0] == '[' then
      var negated := |t| > 1 && t[1] == '^';
      match ReadRanges(if negated then t[2..] else t[1..], true)
      case None => None
      case Some(r) => Some(Read(Class(negated, r.value), r.rest))
    else if t[0] in SPECIAL then None
    else Some(Read(Literal(t[0]), t[1..]))
  }

  function ReadNode(t: string): (r: Option<Read<Node>>)
    requires t != ""
    ensures r.Some? ==> |r.value.rest| < |t|
  {
    if t[0] == '^' then Some(Read(Begin, t[1..]))
    else if t[0] == '$' then Some(Read(End, t[1..]))
    else
      match ReadAtom(t)
      case None => None
      case Some(r) =>
        if r.rest != "" && r.rest[0] == '*' then Some(Read(Many(r.value), r.rest[1..]))
        else Some(Read(One(r.value), r.rest))
  }

  function ReadProgram(t: string): Option<seq<Node>>
    decreases |t|
  {
    if t == "" then Some([])
    else
      match ReadNode(t)
      case None => None
      case Some(r) =>
        match ReadProgram(r.rest)
        case None => None
        case Some(p) => Some([r.value] + p)
  }
}
