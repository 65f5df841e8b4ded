/** Domain patterns: the glob language, its translation to a regular expression, and matching. */
module Glob {
  import opened Wrappers
  import opened Strings
  import opened Names
  import opened Regex

  // ---- What a glob means ----

  /** `c` is listed in the set, on its own or inside a range x-y. */
  predicate Listed(body: string, c: char) {
    if body == "" then false
    else if |body| >= 3 && body[1] == '-' then body[0] <= c <= body[2] || Listed(body[3..], c)
    else c == body[0] || Listed(body[1..], c)
  }

  predicate ListedFolded(body: string, c: char) {
    Listed(body, c) || Listed(body, LowerChar(c)) || Listed(body, UpperChar(c))
  }

  lemma {:induction false} InIndex(s: string, d: char)
    requires d in s
    ensures IndexOf(s, d) < |s|
  {
  }

  /**
   * `host` matches the text of a pattern: '*' any run of characters, '?' one character that is not a dot,
   * '[' with a later ']' one character listed between them, anything else itself; letters in either case.
   */
  ghost predicate Fits(pattern: string, host: string)
    decreases |pattern|
  {
    if pattern == "" then host == ""
    else if pattern[0] == '*' then exists k :: 0 <= k <= |host| && Fits(pattern[1..], host[k..])
    else if host == "" then false
    else if pattern[0] == '?' then host[0] != '.' && Fits(pattern[1..], host[1..])
    else if pattern[0] == '[' && ']' in pattern then
      var end := IndexOf(pattern, ']');
      assert 0 < end < |pattern| by { InIndex(pattern, ']'); }
      && ListedFolded(pattern[1..end], host[0])
      && Fits(pattern[end + 1..], host[1..])
    else LowerChar(pattern[0]) == LowerChar(host[0]) && Fits(pattern[1..], host[1..])
  }

  // ---- The tokens of a pattern ----

  datatype Token = Star | Question | Set(body: string) | Char(c: char)

  /** A '[' opens a set when some ']' follows it, and is an ordinary character otherwise. */
  function Tokens(pattern: string): seq<Token>
    decreases |pattern|
  {
    if pattern == "" then []
    else
      var c := pattern[0];
      if c == '*' then [Star] + Tokens(pattern[1..])
      else if c == '?' then [Question] + Tokens(pattern[1..])
      else if c == '[' && ']' in pattern then
        var end := IndexOf(pattern, ']');
        assert end < |pattern| by { InIndex(pattern, ']'); }
        [Set(pattern[1..end])] + Tokens(pattern[end + 1..])
      else [Char(c)] + Tokens(pattern[1..])
  }

  ghost predicate TokensFit(tokens: seq<Token>, host: string)
    decreases |tokens|
  {
    if tokens == [] then host == ""
    else
      match tokens[0]
      case Star => exists k :: 0 <= k <= |host| && TokensFit(tokens[1..], host[k..])
      case Question => host != "" && host[0] != '.' && TokensFit(tokens[1..], host[1..])
      case Set(body) =>
        && host != ""
        && ListedFolded(body, host[0])
        && TokensFit(tokens[1..], host[1..])
      case Char(c) => host != "" && LowerChar(c) == LowerChar(host[0]) && TokensFit(tokens[1..], host[1..])
  }

  /** The tokens mean what the text means. */
  lemma {:induction false} TokensMean(pattern: string, host: string)
    ensures TokensFit(Tokens(pattern), host) <==> Fits(pattern, host)
    decreases |pattern|
  {
    hide ListedFolded;
    if pattern != "" {
      var c, tokens := pattern[0], Tokens(pattern);
      if c == '*' {
        assert tokens[1..] == Tokens(pattern[1..]);
        forall k | 0 <= k <= |host| ensures TokensFit(tokens[1..], host[k..]) <==> Fits(pattern[1..], host[k..]) {
          TokensMean(pattern[1..], host[k..]);
        }
      } else if c == '[' && ']' in pattern {
        InIndex(pattern, ']');
        var end := IndexOf(pattern, ']');
        assert tokens[1..] == Tokens(pattern[end + 1..]);
        if host != "" { TokensMean(pattern[end + 1..], host[1..]); }
      } else {
        assert tokens[1..] == Tokens(pattern[1..]);
        if host != "" { TokensMean(pattern[1..], host[1..]); }
      }
    }
  }

  // ---- The translation ----

  function Piece(t: Token): string {
    match t
    case Star => ".*"
    case Question => "[^.]"
    case Set(body) => "[" + body + "]"
    case Char(c) => Quote(c)
  }

  function Pieces(tokens: seq<Token>): string {
    if tokens == [] then "" else Piece(tokens[0]) + Pieces(tokens[1..])
  }

  function RegexText(pattern: string): string {
    "^" + Pieces(Tokens(pattern)) + "$"
  }

  lemma OnePiece(pattern: string, i: nat, t: Token, j: nat, text: string)
    requires i < j <= |pattern|
    requires Tokens(pattern[i..]) == [t] + Tokens(pattern[j..])
    ensures text + Pieces(Tokens(pattern[i..])) == text + Piece(t) + Pieces(Tokens(pattern[j..]))
  {
  }

  /** One round of globToRegex's switch: what is appended, and where the next round starts. */
  method NextPiece(pattern: string, i: nat) returns (piece: string, j: nat, ghost t: Token)
    requires i < |pattern|
    ensures i < j <= |pattern|
    ensures piece == Piece(t)
    ensures Tokens(pattern[i..]) == [t] + Tokens(pattern[j..])
  {
    var c := pattern[i];
    var tail := pattern[i..];
    assert tail[1..] == pattern[i + 1..];
    j := i + 1;
    if c == '*' {
      piece, t := ".*", Star;
    } else if c == '?' {
      piece, t := "[^.]", Question;
    } else if c == '[' && ']' in tail {
      InIndex(tail, ']');
      var end := IndexOf(tail, ']');
      j := i + end + 1;
      assert tail[end + 1..] == pattern[j..];
      t := Set(tail[1..end]);
      assert tail[..end + 1] == "[" + tail[1..end] + "]";
      piece := tail[..end + 1];
    } else if c == '.' {
      piece, t := "\\.", Char(c);
    } else {
      piece, t := Quote(c), Char(c);
    }
  }

  /** globToRegex: walks the pattern and appends to a builder. */
  method GlobToRegex(pattern: string) returns (text: string)
    ensures text == RegexText(pattern)
  {
    text := "^";
    var i := 0;
    assert pattern[0..] == pattern;
    while i < |pattern|
      invariant 0 <= i <= |pattern|
      invariant text + Pieces(Tokens(pattern[i..])) == "^" + Pieces(Tokens(pattern))
    {
      var piece, j, t := NextPiece(pattern, i);
      OnePiece(pattern, i, t, j, text);
      text := text + piece;
      i := j;
    }
    assert pattern[i..] == "";
    assert text + "" == text;
    text := text + "$";
  }

  // ---- Reading the translation back ----

  /** A set the regular-expression syntax reads as the glob does: not empty, not negated, no escapes, ranges in order. */
  predicate Simple(body: string) {
    && body != ""
    && body[0] != '^'
    && Ordered(body)
  }

  predicate Ordered(body: string) {
    if body == "" then true
    else if body[0] in "\\[]" then false
    else if |body| >= 3 && body[1] == '-' then
      body[2] !in "\\[]" && body[0] <= body[2] && Ordered(body[3..])
    else Ordered(body[1..])
  }

  function Ranges(body: string): seq<Range> {
    if body == "" then []
    else if |body| >= 3 && body[1] == '-' then [Range(body[0], body[2])] + Ranges(body[3..])
    else [Range(body[0], body[0])] + Ranges(body[1..])
  }

  predicate SimplePattern(pattern: string) {
    forall t :: t in Tokens(pattern) && t.Set? ==> Simple(t.body)
  }

  function Compiled(t: Token): Node {
    match t
    case Star => Many(AnyChar)
    case Question => One(Class(true, [Range('.', '.')]))
    case Set(body) => One(Class(false, Ranges(body)))
    case Char(c) => One(Literal(c))
  }

  function Program(tokens: seq<Token>): (p: seq<Node>)
    ensures |p| == |tokens| + 1
  {
    if tokens == [] then [End] else [Compiled(tokens[0])] + Program(tokens[1..])
  }

  lemma {:induction false} ReadBody(body: string, rest: string, first: bool)
    requires Ordered(body)
    requires first ==> body != ""
    ensures ReadRanges(body + "]" + rest, first) == Some(Read(Ranges(body), rest))
    decreases |body|
  {
    var t := body + "]" + rest;
    if body == "" {
      assert t[1..] == rest;
    } else if |body| >= 3 && body[1] == '-' {
      assert t[3..] == body[3..] + "]" + rest;
      ReadBody(body[3..], rest, false);
    } else {
      assert t[1..] == body[1..] + "]" + rest;
      ReadBody(body[1..], rest, false);
      if |t| >= 3 && t[1] == '-' {
        assert |body| <= 2;
        assert t[2] == ']';
      }
    }
  }

  lemma ReadQuestion(rest: string)
    requires rest != "" && rest[0] != '*'
    ensures ReadNode(Piece(Question) + rest) == Some(Read(Compiled(Question), rest))
  {
    var text := Piece(Question) + rest;
    assert text[2..] == ".]" + rest;
    var r := ".]" + rest;
    assert r[1..] == "]" + rest && r[1..][1..] == rest;
    assert ReadRanges(r[1..], false) == Some(Read([], rest));
    assert [Range('.', '.')] + [] == [Range('.', '.')];
  }

  lemma ReadPiece(t: Token, rest: string)
    requires t.Set? ==> Simple(t.body)
    requires rest != "" && rest[0] != '*'
    ensures ReadNode(Piece(t) + rest) == Some(Read(Compiled(t), rest))
  {
    var text := Piece(t) + rest;
    match t
    case Star =>
      assert text[1..] == "*" + rest;
      assert text[1..][1..] == rest;
    case Question =>
      assert text == Piece(Question) + rest;
      ReadQuestion(rest);
    case Set(body) =>
      assert text[1..] == body + "]" + rest;
      ReadBody(body, rest, true);
    case Char(c) =>
      if c in SPECIAL {
        assert text[2..] == rest;
      } else {
        assert text[1..] == rest;
      }
  }

  lemma PieceStart(tokens: seq<Token>)
    ensures var r := Pieces(tokens) + "$"; r != "" && r[0] != '*'
  {
  }

  lemma {:induction false} ReadPieces(tokens: seq<Token>)
    requires forall t :: t in tokens && t.Set? ==> Simple(t.body)
    ensures ReadProgram(Pieces(tokens) + "$") == Some(Program(tokens))
  {
    if tokens == [] {
      assert Pieces(tokens) + "$" == "$";
      assert ReadNode("$") == Some(Read(End, ""));
      assert ReadProgram("") == Some([]);
      assert [End] + [] == [End];
    } else {
      var tail := Pieces(tokens[1..]) + "$";
      assert Pieces(tokens) + "$" == Piece(tokens[0]) + tail;
      assert tokens[0] in tokens && forall t :: t in tokens[1..] ==> t in tokens;
      PieceStart(tokens[1..]);
      ReadPiece(tokens[0], tail);
      ReadPieces(tokens[1..]);
    }
  }

  /** Every glob with simple sets compiles, to the program its tokens spell. */
  lemma Compiles(pattern: string)
    requires SimplePattern(pattern)
    ensures ReadProgram(RegexText(pattern)) == Some([Begin] + Program(Tokens(pattern)))
  {
    ReadPieces(Tokens(pattern));
    var t := RegexText(pattern);
    assert t[1..] == Pieces(Tokens(pattern)) + "$";
  }

  const FLAG := "(?i)"

  /** compile puts the case-insensitive flag in front unless it is already there. */
  function Flagged(text: string): string {
    if HasPrefix(text, FLAG) then text else FLAG + text
  }

  function ReadFlagged(text: string): Option<seq<Node>> {
    if HasPrefix(text, FLAG) then ReadProgram(text[|FLAG|..]) else None
  }

  lemma FlaggedReads(pattern: string)
    ensures ReadFlagged(Flagged(RegexText(pattern))) == ReadProgram(RegexText(pattern))
  {
    var text := RegexText(pattern);
    assert text[0] == '^' && FLAG[0] == '(';
    assert !HasPrefix(text, FLAG);
    assert (FLAG + text)[|FLAG|..] == text;
  }

  // ---- The program means what the glob means ----

  lemma {:induction false} ListedInRanges(body: string, c: char)
    ensures InRanges(Ranges(body), c) <==> Listed(body, c)
    decreases |body|
  {
    if body != "" {
      var tail := if |body| >= 3 && body[1] == '-' then body[3..] else body[1..];
      ListedInRanges(tail, c);
      var rs := Ranges(body);
      assert rs[1..] == Ranges(tail);
      if InRanges(rs, c) {
        var i :| 0 <= i < |rs| && rs[i].lo <= c <= rs[i].hi;
        if i > 0 { assert Ranges(tail)[i - 1] == rs[i]; }
      }
      if InRanges(Ranges(tail), c) {
        var i :| 0 <= i < |Ranges(tail)| && Ranges(tail)[i].lo <= c <= Ranges(tail)[i].hi;
        assert rs[i + 1] == Ranges(tail)[i];
      }
    }
  }

  lemma NotADot(c: char)
    ensures Accepts(Class(true, [Range('.', '.')]), c) <==> c != '.'
  {
  }

  ghost predicate MatchesFrom(p: seq<Node>, s: string, j: int) {
    0 <= j <= |s| && MatchesAt(p, s, j)
  }

  ghost predicate Somewhere(p: seq<Node>, s: string, i: int) {
    exists j :: i <= j && MatchesFrom(p, s, j)
  }

  /** A run of '.*' reaches exactly the positions a split can reach. */
  lemma {:induction false} StarReaches(p: seq<Node>, s: string, i: nat)
    requires i <= |s| && '\n' !in s
    requires p != [] && p[0] == Many(AnyChar)
    ensures MatchesAt(p, s, i) <==> Somewhere(p[1..], s, i)
    decreases |s| - i
  {
    if i < |s| {
      assert s[i] in s && Accepts(AnyChar, s[i]);
      StarReaches(p, s, i + 1);
    }
    assert MatchesAt(p, s, i) <==> MatchesFrom(p[1..], s, i) || (i < |s| && MatchesAt(p, s, i + 1));
  }

  lemma {:induction false} ProgramFits(tokens: seq<Token>, s: string, i: nat)
    requires i <= |s| && '\n' !in s
    ensures MatchesAt(Program(tokens), s, i) <==> TokensFit(tokens, s[i..])
    decreases |tokens|
  {
    if tokens == [] {
      assert s[i..] == "" <==> i == |s|;
      assert MatchesAt([End][1..], s, i);
    } else {
      var rest := tokens[1..];
      var p := Program(tokens);
      assert p[1..] == Program(rest);
      if tokens[0].Star? {
        StarReaches(p, s, i);
        StarFits(tokens, s, i);
      } else if i < |s| {
        assert s[i..][0] == s[i] && s[i..][1..] == s[i + 1..];
        ProgramFits(rest, s, i + 1);
        match tokens[0]
        case Question => NotADot(s[i]);
        case Set(body) =>
          ListedInRanges(body, s[i]);
          ListedInRanges(body, LowerChar(s[i]));
          ListedInRanges(body, UpperChar(s[i]));
        case Char(c) =>
      }
    }
  }

  ghost predicate FitsFrom(tokens: seq<Token>, host: string, k: int) {
    0 <= k <= |host| && TokensFit(tokens, host[k..])
  }

  lemma StarSplits(tokens: seq<Token>, host: string)
    requires tokens != [] && tokens[0].Star?
    ensures TokensFit(tokens, host) <==> exists k :: FitsFrom(tokens[1..], host, k)
  {
    forall k | FitsFrom(tokens[1..], host, k) ensures TokensFit(tokens, host) { }
    if TokensFit(tokens, host) {
      var k :| 0 <= k <= |host| && TokensFit(tokens[1..], host[k..]);
      assert FitsFrom(tokens[1..], host, k);
    }
  }

  lemma {:induction false} StarFits(tokens: seq<Token>, s: string, i: nat)
    requires i <= |s| && '\n' !in s
    requires tokens != [] && tokens[0].Star?
    ensures Somewhere(Program(tokens[1..]), s, i) <==> TokensFit(tokens, s[i..])
    decreases |tokens|, 0
  {
    var rest := tokens[1..];
    var h := s[i..];
    StarSplits(tokens, h);
    forall j | i <= j <= |s|
      ensures MatchesFrom(Program(rest), s, j) <==> FitsFrom(rest, h, j - i)
    {
      assert h[j - i..] == s[j..];
      ProgramFits(rest, s, j);
    }
    if TokensFit(tokens, h) {
      var k :| FitsFrom(rest, h, k);
      assert MatchesFrom(Program(rest), s, i + k);
    }
  }

  /** Compilation preserves meaning: on one-line hosts the compiled text accepts exactly what the glob does. */
  lemma GlobPreserved(pattern: string, host: string)
    requires SimplePattern(pattern) && '\n' !in host
    ensures ReadProgram(RegexText(pattern)).Some?
    ensures MatchString(ReadProgram(RegexText(pattern)).value, host) <==> Fits(pattern, host)
  {
    hide Fits;
    hide TokensFit;
    hide Tokens;
    hide RegexText;
    hide Program;
    Compiles(pattern);
    var q := Program(Tokens(pattern));
    var p := [Begin] + q;
    assert p[1..] == q;
    ProgramFits(Tokens(pattern), host, 0);
    TokensMean(pattern, host);
    assert host[0..] == host;
    if MatchesAt(q, host, 0) {
      assert MatchesAt(p, host, 0);
    }
  }

  /** The text a pattern is compiled to reads back, and accepts the host exactly when the glob does. */
  ghost predicate Preserved(pattern: string, host: string) {
    var p := ReadProgram(RegexText(pattern));
    p.Some? && (MatchString(p.value, host) <==> Fits(pattern, host))
  }

  /** '.*' up to the end of the text never passes a line feed. */
  lemma {:induction false} LineFeedStops(s: string, i: nat, j: nat)
    requires i <= j < |s| && s[j] == '\n'
    ensures !MatchesAt([Many(AnyChar), End], s, i)
    decreases j - i
  {
    var p := [Many(AnyChar), End];
    assert p[1..] == [End];
    assert !MatchesAt([End], s, i);
    if i < j { LineFeedStops(s, i + 1, j); }
  }

  /** A line feed is a character for the glob's '*' but not for the compiled text. */
  lemma StarStopsAtLineFeed(host: string)
    requires '\n' in host
    ensures SimplePattern("*") && !Preserved("*", host)
  {
    var ts := Tokens("*");
    assert "*"[1..] == "";
    assert ts == [Star] && ts[1..] == [];
    assert TokensFit(ts[1..], host[|host|..]);
    Compiles("*");
    var p := [Begin] + Program(ts);
    assert Program(ts[1..]) == [End];
    assert p[1..] == [Many(AnyChar), End];
    var j :| 0 <= j < |host| && host[j] == '\n';
    LineFeedStops(host, 0, j);
  }

  /** A host on which every glob with simple sets keeps its meaning is one without a line feed, and no other. */
  lemma PreservedExactlyWhen(host: string)
    ensures (forall pattern :: SimplePattern(pattern) ==> Preserved(pattern, host)) <==> '\n' !in host
  {
    if '\n' in host {
      StarStopsAtLineFeed(host);
    } else {
      forall pattern | SimplePattern(pattern) ensures Preserved(pattern, host) {
        GlobPreserved(pattern, host);
      }
    }
  }

  // ---- The matcher of a provider instance ----

  datatype Matcher = Matcher(includes: seq<seq<Node>>, excludes: seq<seq<Node>>)

  /** Some include and no exclude accepts the canonical host. */
  predicate Handles(m: Matcher, host: string) {
    && (exists i :: 0 <= i < |m.includes| && MatchString(m.includes[i], Normalized(host)))
    && !(exists i :: 0 <= i < |m.excludes| && MatchString(m.excludes[i], Normalized(host)))
  }

  /** Matches lower-cases first and trims the dot second. */
  function Normalized(host: string): string {
    TrimDot(Lower(host))
  }

  lemma NormalizedIsNormalize(host: string)
    ensures Normalized(host) == Normalize(host)
  {
  }

  /** Matches: excludes first, then includes, with early returns. */
  method Matches(m: Matcher, host: string) returns (found: bool)
    ensures found == Handles(m, host)
  {
    var h := Normalized(host);
    for i := 0 to |m.excludes|
      invariant forall j :: 0 <= j < i ==> !MatchString(m.excludes[j], h)
    {
      if MatchString(m.excludes[i], h) { return false; }
    }
    for i := 0 to |m.includes|
      invariant forall j :: 0 <= j < i ==> !MatchString(m.includes[j], h)
    {
      if MatchString(m.includes[i], h) { return true; }
    }
    return false;
  }

  /** compile and NewDomainMatcher for globs: fails without includes or on the first pattern the reader rejects. */
  method NewMatcher(includes: seq<string>, excludes: seq<string>) returns (m: Option<Matcher>)
    ensures m.Some? <==>
            && includes != []
            && (forall p :: p in includes + excludes ==> ReadProgram(RegexText(p)).Some?)
    ensures m.Some? ==>
            && |m.value.includes| == |includes|
            && |m.value.excludes| == |excludes|
            && (forall i :: 0 <= i < |includes| ==> Some(m.value.includes[i]) == ReadProgram(RegexText(includes[i])))
            && (forall i :: 0 <= i < |excludes| ==> Some(m.value.excludes[i]) == ReadProgram(RegexText(excludes[i])))
  {
    if includes == [] { return None; }
    var inc := CompileEach(includes);
    var exc := CompileEach(excludes);
    if inc.None? || exc.None? {
      assert exists p :: p in includes + excludes && ReadProgram(RegexText(p)).None?;
      return None;
    }
    return Some(Matcher(inc.value, exc.value));
  }

  method CompileEach(patterns: seq<string>) returns (ps: Option<seq<seq<Node>>>)
    ensures ps.None? ==> exists p :: p in patterns && ReadProgram(RegexText(p)).None?
    ensures ps.Some? ==>
            && |ps.value| == |patterns|
            && forall i :: 0 <= i < |patterns| ==> Some(ps.value[i]) == ReadProgram(RegexText(patterns[i]))
  {
    var done: seq<seq<Node>> := [];
    for i := 0 to |patterns|
      invariant |done| == i
      invariant forall j :: 0 <= j < i ==> Some(done[j]) == ReadProgram(RegexText(patterns[j]))
    {
      var text := GlobToRegex(patterns[i]);
      FlaggedReads(patterns[i]);
      var p := ReadFlagged(Flagged(text));
      if p.None? {
        assert patterns[i] in patterns;
        return None;
      }
      done := done + [p.value];
    }
    return Some(done);
  }

  /** A host is handled exactly when some include glob and no exclude glob fits its canonical name. */
  lemma HandlesByGlobs(m: Matcher, includes: seq<string>, excludes: seq<string>, host: string)
    requires |m.includes| == |includes| && |m.excludes| == |excludes|
    requires forall i :: 0 <= i < |includes| ==> Some(m.includes[i]) == ReadProgram(RegexText(includes[i]))
    requires forall i :: 0 <= i < |excludes| ==> Some(m.excludes[i]) == ReadProgram(RegexText(excludes[i]))
    requires forall p :: p in includes + excludes ==> SimplePattern(p)
    requires '\n' !in Normalize(host)
    ensures Handles(m, host) <==>
            && (exists p :: p in includes && Fits(p, Normalize(host)))
            && !(exists p :: p in excludes && Fits(p, Normalize(host)))
  {
    var h := Normalize(host);
    NormalizedIsNormalize(host);
    forall p | p in includes + excludes
      ensures ReadProgram(RegexText(p)).Some?
      ensures MatchString(ReadProgram(RegexText(p)).value, h) <==> Fits(p, h)
    {
      GlobPreserved(p, h);
    }
    assert forall i :: 0 <= i < |includes| ==> includes[i] in includes + excludes;
    assert forall i :: 0 <= i < |excludes| ==> excludes[i] in includes + excludes;
    if p :| p in includes && Fits(p, h) {
      var i :| 0 <= i < |includes| && includes[i] == p;
      assert MatchString(m.includes[i], h);
    }
    if p :| p in excludes && Fits(p, h) {
      var i :| 0 <= i < |excludes| && excludes[i] == p;
      assert MatchString(m.excludes[i], h);
    }
  }
}
