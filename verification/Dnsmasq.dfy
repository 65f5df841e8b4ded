/** The dnsmasq configuration file as a store of records: reading, appending, deleting and rewriting lines. */
module Dnsmasq {
  import opened Wrappers
  import opened Strings
  import opened Backend

  // ---- Text ----

  function TrimLeft(s: string): string {
    if s != "" && White(s[0]) then TrimLeft(s[1..]) else s
  }

  function TrimRight(s: string): string {
    if s != "" && White(s[|s| - 1]) then TrimRight(s[..|s| - 1]) else s
  }

  /** strings.TrimSpace on ASCII. */
  function Trim(s: string): string {
    TrimRight(TrimLeft(s))
  }

  /** The text between i and j is what is left when all white space before and after it is gone. */
  ghost predicate TrimmedAt(s: string, i: int, j: int) {
    && 0 <= i <= j <= |s|
    && (forall k :: 0 <= k < i || j <= k < |s| ==> White(s[k]))
    && (i < j ==> !White(s[i]) && !White(s[j - 1]))
  }

  lemma {:induction false} TrimLeftAt(s: string) returns (i: nat)
    ensures i <= |s| && TrimLeft(s) == s[i..] && (forall k :: 0 <= k < i ==> White(s[k])) && (i < |s| ==> !White(s[i]))
  {
    i := 0;
    if s != "" && White(s[0]) {
      i := TrimLeftAt(s[1..]);
      assert s[1..][i..] == s[i + 1..];
      assert forall k :: 1 <= k < i + 1 ==> s[k] == s[1..][k - 1];
      i := i + 1;
    }
  }

  lemma {:induction false} TrimRightAt(s: string) returns (j: nat)
    ensures j <= |s| && TrimRight(s) == s[..j] && (forall k :: j <= k < |s| ==> White(s[k])) && (j > 0 ==> !White(s[j - 1]))
    decreases |s|
  {
    j := |s|;
    if s != "" && White(s[|s| - 1]) {
      j := TrimRightAt(s[..|s| - 1]);
      assert s[..|s| - 1][..j] == s[..j];
    }
  }

  lemma TrimExactly(s: string) returns (i: int, j: int)
    ensures TrimmedAt(s, i, j) && Trim(s) == s[i..j]
  {
    var a := TrimLeftAt(s);
    var b := TrimRightAt(s[a..]);
    i, j := a, a + b;
    assert s[a..][..b] == s[a..a + b];
    assert forall k :: a <= k < |s| ==> s[k] == s[a..][k - a];
  }

  predicate HasSuffix(s: string, t: string) {
    |t| <= |s| && s[|s| - |t|..] == t
  }

  /** strings.Contains. */
  predicate Contains(s: string, t: string) {
    exists i :: 0 <= i <= |s| && HasPrefix(s[i..], t)
  }

  function DropReturn(s: string): string {
    if s != "" && s[|s| - 1] == '\r' then s[..|s| - 1] else s
  }

  /** The lines bufio.Scanner yields: cut at line feeds, without a carriage return at the end. */
  function ScanLines(content: string): seq<string>
    decreases |content|
  {
    if content == "" then []
    else
      var k := IndexOf(content, '\n');
      if k == |content| then [DropReturn(content)]
      else [DropReturn(content[..k])] + ScanLines(content[k + 1..])
  }

  /** bufio.MaxScanTokenSize: a scanner gives up on a line that fills its buffer. */
  const MAX_LINE := 65536

  predicate LongLine(content: string)
    decreases |content|
  {
    var k := IndexOf(content, '\n');
    k >= MAX_LINE || (k < |content| && LongLine(content[k + 1..]))
  }

  /** Some stretch of 65536 bytes is without a line feed. */
  ghost predicate Stretch(content: string, i: nat) {
    i + 65536 <= |content| && '\n' !in content[i..i + 65536]
  }

  lemma StretchBehind(content: string, k: nat, i: nat)
    requires k < |content| && content[k] == '\n'
    ensures i > k ==> (Stretch(content, i) <==> Stretch(content[k + 1..], i - k - 1))
    ensures i <= k < i + 65536 ==> !Stretch(content, i)
  {
    if k < i && i + 65536 <= |content| {
      assert content[k + 1..][i - k - 1..i - k - 1 + 65536] == content[i..i + 65536];
    }
    if i <= k < i + 65536 <= |content| { assert content[i..i + 65536][k - i] == '\n'; }
  }

  lemma {:induction false} LongLineExactly(content: string)
    ensures LongLine(content) <==> exists i: nat :: Stretch(content, i)
    decreases |content|
  {
    hide Stretch;
    var k := IndexOf(content, '\n');
    if k >= 65536 {
      FirstStretch(content, k);
    } else if k < |content| {
      var rest := content[k + 1..];
      LongLineExactly(rest);
      forall i: nat ensures Stretch(content, i) <==> i > k && Stretch(rest, i - k - 1) { StretchBehind(content, k, i); }
      if i: nat :| Stretch(rest, i) { assert Stretch(content, i + k + 1); }
    } else {
      ShortHasNone(content);
    }
  }

  lemma FirstStretch(content: string, k: nat)
    requires 65536 <= k <= |content| && '\n' !in content[..k]
    ensures Stretch(content, 0)
  {
    assert forall j :: 0 <= j < 65536 ==> content[0..65536][j] == content[..k][j];
  }

  lemma ShortHasNone(content: string)
    requires |content| < 65536
    ensures forall i: nat :: !Stretch(content, i)
  {
  }

  /** strings.Join with line feeds. */
  function JoinLines(lines: seq<string>): string {
    if lines == [] then ""
    else if |lines| == 1 then lines[0]
    else lines[0] + "\n" + JoinLines(lines[1..])
  }

  // ---- Lines ----

  datatype IpKind = NotIp | V4 | V6

  /** dnsmasqRecord. */
  datatype Entry = Entry(host: string, rtype: RecordType, target: string)

  const ADDRESS := "address=/"
  const ALIAS := "cname="

  /** The two halves of `s` around the first `d`, if both are non-empty and the second has no line feed. */
  function Halves(s: string, d: char): Option<(string, string)> {
    var k := IndexOf(s, d);
    if 0 < k && k + 1 < |s| && '\n' !in s[k + 1..] then Some((s[..k], s[k + 1..])) else None
  }

  /** parseLine; `kind` is what net.ParseIP makes of the target. */
  function ParseLine(kind: string -> IpKind, line: string): Option<Entry> {
    if HasPrefix(line, ADDRESS) && Halves(line[|ADDRESS|..], '/').Some? then
      var (host, target) := Halves(line[|ADDRESS|..], '/').value;
      match kind(target)
      case NotIp => None
      case V4 => Some(Entry(host, A, target))
      case V6 => Some(Entry(host, AAAA, target))
    else if HasPrefix(line, ALIAS) && Halves(line[|ALIAS|..], ',').Some? then
      var (host, target) := Halves(line[|ALIAS|..], ',').value;
      Some(Entry(host, CNAME, target))
    else None
  }

  /** formatRecord. */
  function Format(e: Entry): Option<string> {
    match e.rtype
    case A => Some(ADDRESS + (e.host + ['/'] + e.target))
    case AAAA => Some(ADDRESS + (e.host + ['/'] + e.target))
    case CNAME => Some(ALIAS + (e.host + [','] + e.target))
    case _ => None
  }

  /** The line of a record, character by character; other types have none. */
  lemma FormatText(e: Entry)
    ensures e.rtype == A || e.rtype == AAAA ==> Format(e) == Some("address=/" + e.host + "/" + e.target)
    ensures e.rtype == CNAME ==> Format(e) == Some("cname=" + e.host + "," + e.target)
    ensures Format(e).Some? ==> e.rtype == A || e.rtype == AAAA || e.rtype == CNAME
  {
    assert "address=/" + (e.host + ['/'] + e.target) == "address=/" + e.host + "/" + e.target;
    assert "cname=" + (e.host + [','] + e.target) == "cname=" + e.host + "," + e.target;
  }

  lemma HalvesJoin(s: string, d: char)
    requires Halves(s, d).Some?
    ensures var (a, b) := Halves(s, d).value; s == a + [d] + b && d !in a && a != "" && b != "" && '\n' !in b
  {
  }

  lemma HalvesOf(a: string, d: char, b: string)
    ensures Halves(a + [d] + b, d) == Some((a, b)) <==> d !in a && a != "" && b != "" && '\n' !in b
  {
    var s := a + [d] + b;
    if d !in a {
      IndexOfAppend(a, d, b);
      assert s[..|a|] == a && s[|a| + 1..] == b;
    }
  }

  /** Printing what was read gives the line back. */
  lemma FormatUndoesParse(kind: string -> IpKind, line: string)
    requires ParseLine(kind, line).Some?
    ensures Format(ParseLine(kind, line).value) == Some(line)
  {
    hide Halves;
    if HasPrefix(line, ADDRESS) && Halves(line[|ADDRESS|..], '/').Some? {
      HalvesJoin(line[|ADDRESS|..], '/');
      assert line == ADDRESS + line[|ADDRESS|..];
    } else {
      HalvesJoin(line[|ALIAS|..], ',');
      assert line == ALIAS + line[|ALIAS|..];
    }
  }

  /** What a record must be like for its line to be read as that record. */
  predicate Readable(kind: string -> IpKind, e: Entry) {
    && e.host != "" && e.target != "" && '\n' !in e.target
    && match e.rtype
       case A => '/' !in e.host && kind(e.target).V4?
       case AAAA => '/' !in e.host && kind(e.target).V6?
       case CNAME => ',' !in e.host
       case _ => false
  }

  /** Reading what was printed gives the record back, exactly for readable records. */
  lemma ParseUndoesFormat(kind: string -> IpKind, e: Entry)
    requires Format(e).Some?
    ensures ParseLine(kind, Format(e).value) == Some(e) <==> Readable(kind, e)
  {
    if e.rtype.CNAME? {
      AliasReads(kind, e.host, e.target);
    } else {
      assert e.rtype.A? || e.rtype.AAAA?;
      AddressReads(kind, e.host, e.target, e);
    }
  }

  lemma AliasReads(kind: string -> IpKind, host: string, target: string)
    ensures ParseLine(kind, ALIAS + (host + [','] + target)) == Some(Entry(host, CNAME, target))
       <==> host != "" && target != "" && ',' !in host && '\n' !in target
  {
    hide Halves;
    var s := host + [','] + target;
    AfterPrefix(ALIAS, s);
    NoOtherPrefix(ALIAS, ADDRESS, s);
    HalvesOf(host, ',', target);
    var parts := Halves(s, ',');
    assert ParseLine(kind, ALIAS + s)
        == if parts.Some? then Some(Entry(parts.value.0, CNAME, parts.value.1)) else None;
  }

  lemma AddressReads(kind: string -> IpKind, host: string, target: string, e: Entry)
    requires e.host == host && e.target == target
    ensures ParseLine(kind, ADDRESS + (host + ['/'] + target)) == Some(e)
       <==> && host != "" && target != "" && '/' !in host && '\n' !in target
            && ((e.rtype.A? && kind(target).V4?) || (e.rtype.AAAA? && kind(target).V6?))
  {
    hide Halves;
    var s := host + ['/'] + target;
    AfterPrefix(ADDRESS, s);
    NoOtherPrefix(ADDRESS, ALIAS, s);
    HalvesOf(host, '/', target);
    var parts := Halves(s, '/');
    assert ParseLine(kind, ADDRESS + s)
        == if parts.None? || kind(parts.value.1).NotIp? then None
           else Some(Entry(parts.value.0, if kind(parts.value.1).V4? then A else AAAA, parts.value.1));
  }

  lemma NoOtherPrefix(p: string, q: string, s: string)
    requires p != "" && q != "" && p[0] != q[0]
    ensures !HasPrefix(p + s, q)
  {
  }

  lemma AfterPrefix(p: string, s: string)
    ensures HasPrefix(p + s, p) && (p + s)[|p|..] == s
  {
  }

  // ---- Files ----

  /** The trimmed lines that are not blank, in order. */
  function Directives(lines: seq<string>): seq<string> {
    if lines == [] then []
    else
      var n := |lines| - 1;
      Directives(lines[..n]) + (if Trim(lines[n]) == "" then [] else [Trim(lines[n])])
  }

  predicate InZone(zone: string, host: string) {
    zone == "" || HasSuffix(host, "." + zone) || host == zone
  }

  /** No zone takes every host; a zone takes its own name and the names under it. */
  lemma InZoneExactly(zone: string, host: string)
    ensures InZone(zone, host) <==> zone == "" || host == zone || exists sub: string :: host == sub + "." + zone
  {
    if HasSuffix(host, "." + zone) {
      var sub := host[..|host| - |zone| - 1];
      assert host == sub + "." + zone;
    }
    forall sub: string | host == sub + "." + zone ensures HasSuffix(host, "." + zone) {
      assert host == sub + ("." + zone);
    }
  }

  /** The record a directive stands for, if it is not a comment, can be read, and is in the zone. */
  function Meaning(kind: string -> IpKind, zone: string, line: string): Option<Entry> {
    if HasPrefix(line, "#") then None
    else
      match ParseLine(kind, line)
      case None => None
      case Some(e) => if InZone(zone, e.host) then Some(e) else None
  }

  function Entries(kind: string -> IpKind, zone: string, directives: seq<string>): seq<Entry> {
    if directives == [] then []
    else
      var n := |directives| - 1;
      var e := Meaning(kind, zone, directives[n]);
      Entries(kind, zone, directives[..n]) + (if e.Some? then [e.value] else [])
  }

  function DirectivesOf(content: string): seq<string> {
    Directives(ScanLines(content))
  }

  /** parseConfigContent: nothing at all when a line is too long. */
  function Parse(kind: string -> IpKind, zone: string, content: string): Option<seq<Entry>> {
    if LongLine(content) then None else Some(Entries(kind, zone, DirectivesOf(content)))
  }

  lemma {:induction false} DirectivesAppend(a: seq<string>, b: seq<string>)
    ensures Directives(a + b) == Directives(a) + Directives(b)
    decreases |b|
  {
    hide Trim;
    if b == [] {
      assert a + b == a;
    } else {
      var n := |b| - 1;
      assert (a + b)[..|a| + n] == a + b[..n];
      DirectivesAppend(a, b[..n]);
    }
  }

  lemma {:induction false} EntriesAppend(kind: string -> IpKind, zone: string, a: seq<string>, b: seq<string>)
    ensures Entries(kind, zone, a + b) == Entries(kind, zone, a) + Entries(kind, zone, b)
    decreases |b|
  {
    hide Meaning;
    if b == [] {
      assert a + b == a;
    } else {
      var n := |b| - 1;
      assert (a + b)[..|a| + n] == a + b[..n];
      EntriesAppend(kind, zone, a, b[..n]);
    }
  }

  lemma {:induction false} ScanFirst(a: string, b: string)
    requires '\n' !in a
    ensures ScanLines(a + "\n" + b) == [DropReturn(a)] + ScanLines(b)
    ensures LongLine(a + "\n" + b) <==> |a| >= MAX_LINE || LongLine(b)
  {
    IndexOfAppend(a, '\n', b);
    var s := a + ['\n'] + b;
    assert s[..|a|] == a && s[|a| + 1..] == b;
  }

  lemma ScanNothing()
    ensures ScanLines("") == [] && !LongLine("")
  {
  }

  /** A file that ends with a line feed, or is empty, is followed by its continuation line by line. */
  lemma {:induction false} ScanAppend(x: string, y: string)
    requires x == "" || x[|x| - 1] == '\n'
    ensures ScanLines(x + y) == ScanLines(x) + ScanLines(y)
    ensures LongLine(x + y) <==> LongLine(x) || LongLine(y)
    decreases |x|
  {
    hide ScanLines;
    hide LongLine;
    if x == "" {
      assert x + y == y;
      ScanNothing();
    } else {
      var k := IndexOf(x, '\n');
      assert k < |x|;
      var a, rest := x[..k], x[k + 1..];
      assert x == a + "\n" + rest;
      assert x + y == a + "\n" + (rest + y);
      ScanFirst(a, rest);
      ScanFirst(a, rest + y);
      ScanAppend(rest, y);
    }
  }

  // ---- What a rewritten file says ----

  /** The content Delete writes: the kept lines joined, with a line feed at the end. */
  function Rejoin(lines: seq<string>): string {
    var joined := JoinLines(lines);
    if lines != [] && !HasSuffix(joined, "\n") then joined + "\n" else joined
  }

  ghost predicate SingleLines(lines: seq<string>) {
    forall i :: 0 <= i < |lines| ==> '\n' !in lines[i]
  }

  lemma {:induction false} TrimRightReturn(s: string)
    ensures TrimRight(DropReturn(s)) == TrimRight(s)
  {
  }

  lemma {:induction false} TrimReturn(s: string)
    ensures Trim(DropReturn(s)) == Trim(s)
    decreases |s|
  {
    if s != "" && White(s[0]) {
      if |s| > 1 {
        assert DropReturn(s)[1..] == DropReturn(s[1..]);
        TrimReturn(s[1..]);
      }
    } else {
      TrimRightReturn(s);
      if s != "" && |DropReturn(s)| > 0 { assert DropReturn(s)[0] == s[0]; }
    }
  }

  /** The directives of a rejoined list of lines are the directives of the lines. */
  lemma {:induction false} RejoinReads(lines: seq<string>)
    requires SingleLines(lines)
    ensures DirectivesOf(Rejoin(lines)) == Directives(lines)
    decreases |lines|
  {
    hide Trim;
    if lines == [] {
      ScanNothing();
    } else {
      var rest := lines[1..];
      assert lines == [lines[0]] + rest;
      RejoinReads(rest);
      RejoinStep(lines);
      OneDirective(lines[0]);
      DirectivesAppend([lines[0]], rest);
    }
  }

  lemma OneDirective(line: string)
    ensures Directives([DropReturn(line)]) == Directives([line])
  {
    TrimReturn(line);
    assert [line][..0] == [] && [DropReturn(line)][..0] == [];
  }

  lemma RejoinStep(lines: seq<string>)
    requires lines != [] && SingleLines(lines)
    requires DirectivesOf(Rejoin(lines[1..])) == Directives(lines[1..])
    ensures DirectivesOf(Rejoin(lines)) == Directives([DropReturn(lines[0])]) + Directives(lines[1..])
  {
    hide Trim;
    var l, rest := lines[0], lines[1..];
    var tail := if rest == [] || JoinLines(rest) == "" then "" else Rejoin(rest);
    RejoinFirst(lines);
    ScanFirst(l, tail);
    DirectivesAppend([DropReturn(l)], ScanLines(tail));
    ScanNothing();
    if rest != [] && JoinLines(rest) == "" {
      BlankRest(rest);
    }
  }

  lemma BlankRest(rest: seq<string>)
    requires rest != [] && JoinLines(rest) == ""
    ensures Directives(rest) == []
  {
  }

  lemma NoFeedAtEnd(l: string)
    requires '\n' !in l
    ensures !HasSuffix(l, "\n")
  {
    if l != "" {
      assert l[|l| - 1] in l && l[|l| - 1..][0] == l[|l| - 1];
    }
  }

  lemma RejoinFirst(lines: seq<string>)
    requires lines != [] && SingleLines(lines)
    ensures var rest := lines[1..];
            Rejoin(lines) == lines[0] + "\n" + (if rest == [] || JoinLines(rest) == "" then "" else Rejoin(rest))
  {
    hide HasSuffix;
    var l, rest := lines[0], lines[1..];
    if rest == [] {
      NoFeedAtEnd(l);
      assert l + "\n" + "" == l + "\n";
    } else {
      var j := JoinLines(rest);
      FeedAtEnd(l + "\n", j);
      FeedAtEnd(l, "\n");
      assert HasSuffix("\n", "\n") by { FeedItself(); }
      if j == "" {
        assert l + "\n" + j == l + "\n" && l + "\n" + "" == l + "\n";
      } else {
        assert l + "\n" + j + "\n" == l + "\n" + (j + "\n");
      }
    }
  }

  lemma FeedItself()
    ensures HasSuffix("\n", "\n")
  {
  }

  /** A text ends in a line feed when its last piece does. */
  lemma FeedAtEnd(a: string, b: string)
    ensures b != "" ==> (HasSuffix(a + b, "\n") <==> HasSuffix(b, "\n"))
  {
    if b != "" {
      assert (a + b)[|a + b| - 1..] == b[|b| - 1..];
    }
  }

  // ---- Long lines ----

  ghost predicate ShortLines(lines: seq<string>) {
    forall i :: 0 <= i < |lines| ==> |lines[i]| < MAX_LINE
  }

  lemma {:induction false} ScannedLines(content: string)
    ensures SingleLines(ScanLines(content))
    ensures !LongLine(content) ==> ShortLines(ScanLines(content))
    decreases |content|
  {
    hide DropReturn;
    hide IndexOf;
    if content != "" {
      var k := IndexOf(content, '\n');
      FirstLine(content);
      if k < |content| {
        ScannedLines(content[k + 1..]);
      } else {
        assert content[..k] == content;
      }
    }
  }

  lemma FirstLine(content: string)
    ensures var line := content[..IndexOf(content, '\n')];
            '\n' !in DropReturn(line) && |DropReturn(line)| <= |line|
  {
  }

  lemma {:induction false} RejoinShort(lines: seq<string>)
    requires SingleLines(lines) && ShortLines(lines)
    ensures !LongLine(Rejoin(lines))
    decreases |lines|
  {
    hide LongLine;
    hide Rejoin;
    ScanNothing();
    if lines == [] {
      assert Rejoin(lines) == "" by { RejoinNothing(); }
    } else {
      var rest := lines[1..];
      RejoinShort(rest);
      RejoinFirst(lines);
      ScanFirst(lines[0], if rest == [] || JoinLines(rest) == "" then "" else Rejoin(rest));
    }
  }

  lemma RejoinNothing()
    ensures Rejoin([]) == ""
  {
  }

  // ---- Delete ----

  function OtherLines(lines: seq<string>, line: string): seq<string> {
    if lines == [] then []
    else
      var n := |lines| - 1;
      OtherLines(lines[..n], line) + (if Trim(lines[n]) == line then [] else [lines[n]])
  }

  function OtherEntries(entries: seq<Entry>, e: Entry): seq<Entry> {
    if entries == [] then []
    else
      var n := |entries| - 1;
      OtherEntries(entries[..n], e) + (if Format(entries[n]) == Format(e) then [] else [entries[n]])
  }

  /** The file after Delete: rewritten only when a line was removed. */
  function Deleted(content: string, line: string): string {
    var kept := OtherLines(ScanLines(content), line);
    if |kept| == |ScanLines(content)| then content else Rejoin(kept)
  }

  lemma {:induction false} OtherLinesPart(lines: seq<string>, line: string)
    ensures |OtherLines(lines, line)| <= |lines|
    ensures |OtherLines(lines, line)| == |lines| ==> OtherLines(lines, line) == lines
    ensures SingleLines(lines) ==> SingleLines(OtherLines(lines, line))
    ensures ShortLines(lines) ==> ShortLines(OtherLines(lines, line))
    decreases |lines|
  {
    hide Trim;
    if lines != [] {
      var n := |lines| - 1;
      assert lines == lines[..n] + [lines[n]];
      OtherLinesPart(lines[..n], line);
    }
  }

  lemma {:induction false} OtherLinesRead(lines: seq<string>, line: string)
    requires line != ""
    ensures Directives(OtherLines(lines, line)) == Except(Directives(lines), line)
    decreases |lines|
  {
    hide Trim;
    if lines != [] {
      var n := |lines| - 1;
      OtherLinesRead(lines[..n], line);
      var d := Trim(lines[n]);
      DirectivesSnoc(OtherLines(lines[..n], line), lines[n]);
      OtherSnoc(Directives(lines[..n]), d, line);
      var kept := OtherLines(lines[..n], line);
      assert kept + [] == kept && Directives(kept) + [] == Directives(kept);
      assert d == "" ==> Directives(lines) == Directives(lines[..n]);
      assert d != "" ==> Directives(lines) == Directives(lines[..n]) + [d];
      assert OtherLines(lines, line) == if d == line then kept else kept + [lines[n]];
    }
  }

  lemma DirectivesSnoc(lines: seq<string>, l: string)
    ensures Directives(lines + [l]) == Directives(lines) + (if Trim(l) == "" then [] else [Trim(l)])
  {
  }

  lemma OtherSnoc(directives: seq<string>, d: string, line: string)
    ensures Except(directives + [d], line) == Except(directives, line) + (if d == line then [] else [d])
    ensures directives + [] == directives
  {
  }

  /** Delete keeps every other line that says anything, comments and unknown directives included, in order. */
  lemma DeleteFilters(content: string, line: string)
    requires line != ""
    ensures DirectivesOf(Deleted(content, line)) == Except(DirectivesOf(content), line)
    ensures !LongLine(content) ==> !LongLine(Deleted(content, line))
  {
    hide Directives;
    hide LongLine;
    var lines := ScanLines(content);
    ScannedLines(content);
    OtherLinesPart(lines, line);
    OtherLinesRead(lines, line);
    RejoinReads(OtherLines(lines, line));
    if !LongLine(content) {
      RejoinShort(OtherLines(lines, line));
    }
  }

  lemma {:induction false} OtherEntriesRead(kind: string -> IpKind, zone: string, directives: seq<string>, e: Entry)
    requires Format(e).Some?
    ensures Entries(kind, zone, Except(directives, Format(e).value))
         == OtherEntries(Entries(kind, zone, directives), e)
    decreases |directives|
  {
    hide Meaning;
    hide Format;
    if directives != [] {
      var n := |directives| - 1;
      var d, line := directives[n], Format(e).value;
      OtherEntriesRead(kind, zone, directives[..n], e);
      var kept := Except(directives[..n], line);
      EntriesSnoc(kind, zone, kept, d);
      assert d == line ==> Except(directives, line) == kept;
      var m := Meaning(kind, zone, d);
      if m.Some? {
        MeaningFormats(kind, zone, d);
        OtherEntriesSnoc(Entries(kind, zone, directives[..n]), m.value, e);
      } else {
        assert kept + [] == kept;
        assert Entries(kind, zone, directives) == Entries(kind, zone, directives[..n]);
      }
    }
  }

  lemma EntriesSnoc(kind: string -> IpKind, zone: string, directives: seq<string>, d: string)
    ensures var m := Meaning(kind, zone, d);
            Entries(kind, zone, directives + [d]) == Entries(kind, zone, directives) + (if m.Some? then [m.value] else [])
  {
  }

  lemma OtherEntriesSnoc(entries: seq<Entry>, x: Entry, e: Entry)
    ensures OtherEntries(entries + [x], e) == OtherEntries(entries, e) + (if Format(x) == Format(e) then [] else [x])
  {
  }

  lemma MeaningFormats(kind: string -> IpKind, zone: string, d: string)
    requires Meaning(kind, zone, d).Some?
    ensures Format(Meaning(kind, zone, d).value) == Some(d)
  {
    FormatUndoesParse(kind, d);
  }

  /** Among records that were read, those printed like a readable record are that record. */
  lemma {:induction false} OthersAreExcept(kind: string -> IpKind, zone: string, directives: seq<string>, e: Entry)
    requires Readable(kind, e)
    ensures var entries := Entries(kind, zone, directives); OtherEntries(entries, e) == Except(entries, e)
    decreases |directives|
  {
    hide Readable;
    hide Meaning;
    hide Format;
    if directives != [] {
      var n := |directives| - 1;
      OthersAreExcept(kind, zone, directives[..n], e);
      var before := Entries(kind, zone, directives[..n]);
      var m := Meaning(kind, zone, directives[n]);
      if m.Some? {
        SamePrint(kind, zone, directives[n], e);
        assert (before + [m.value])[..|before|] == before;
      } else {
        assert Entries(kind, zone, directives) == before;
      }
    }
  }

  lemma SamePrint(kind: string -> IpKind, zone: string, d: string, e: Entry)
    requires Readable(kind, e) && Meaning(kind, zone, d).Some?
    ensures Format(Meaning(kind, zone, d).value) == Format(e) <==> Meaning(kind, zone, d).value == e
  {
    MeaningFormats(kind, zone, d);
    assert Format(e).Some?;
    ParseUndoesFormat(kind, e);
  }

  /** Deleting a readable record filters exactly that record out of what the file is read as. */
  lemma DeleteExactly(kind: string -> IpKind, zone: string, content: string, e: Entry)
    requires Readable(kind, e) && Parse(kind, zone, content).Some?
    ensures Parse(kind, zone, Deleted(content, Format(e).value)) == Some(Except(Parse(kind, zone, content).value, e))
  {
    hide Readable;
    hide LongLine;
    hide Deleted;
    assert Format(e).Some? by { ReadableFormats(kind, e); }
    var line := Format(e).value;
    ReadableFormats(kind, e);
    DeleteFilters(content, line);
    OtherEntriesRead(kind, zone, DirectivesOf(content), e);
    OthersAreExcept(kind, zone, DirectivesOf(content), e);
  }

  lemma ReadableFormats(kind: string -> IpKind, e: Entry)
    requires Readable(kind, e)
    ensures Format(e).Some? && Format(e).value != ""
  {
  }

  // ---- Create ----

  // The lines of the header, in pieces short enough for the solver to look through.
  const NOTICE := "# Managed by dnsweaver " + "- DO NOT EDIT MANUALLY"
  const WARNING := "# This file is automatically " + "generated and any manual " + "changes will be overwritten."
  const LINK := "# See https://github.com/" + "maxfield-allison/dnsweaver " + "for more information."
  const HEADER_LINES := [NOTICE, WARNING, LINK, "", ""]

  /** fileHeader. */
  function Header(): string {
    Rejoin(HEADER_LINES)
  }

  function Closed(content: string): string {
    if HasSuffix(content, "\n") then content else content + "\n"
  }

  /** The file after Create; a missing file reads as empty. */
  function Created(content: string, line: string): string {
    if Contains(content, line) then content
    else (if content != "" then Closed(content) else Header()) + line + "\n"
  }

  lemma OnlyLine(line: string)
    ensures JoinLines([line]) == line
  {
  }

  lemma OneMoreLine(line: string, lines: seq<string>)
    requires lines != []
    ensures JoinLines([line] + lines) == line + "\n" + JoinLines(lines)
  {
    assert ([line] + lines)[1..] == lines;
  }

  lemma FiveLines(a: string, b: string, c: string)
    ensures JoinLines([a, b, c, "", ""]) == a + "\n" + (b + "\n" + (c + "\n" + "\n"))
  {
    hide JoinLines;
    OnlyLine("");
    OneMoreLine("", [""]);
    OneMoreLine(c, ["", ""]);
    OneMoreLine(b, [c, "", ""]);
    OneMoreLine(a, [b, c, "", ""]);
    assert [""] + [""] == ["", ""] && [c] + ["", ""] == [c, "", ""];
    assert [b] + [c, "", ""] == [b, c, "", ""] && [a] + [b, c, "", ""] == [a, b, c, "", ""];
    assert "" + "\n" + "" == "\n";
  }

  /** The header of a new file: three lines of comment and an empty one. */
  lemma HeaderText()
    ensures Header() == NOTICE + "\n" + (WARNING + "\n" + (LINK + "\n" + "\n"))
    ensures NOTICE == "# Managed by dnsweaver " + "- DO NOT EDIT MANUALLY"
    ensures WARNING == "# This file is automatically " + "generated and any manual " + "changes will be overwritten."
    ensures LINK == "# See https://github.com/" + "maxfield-allison/dnsweaver " + "for more information."
  {
    hide JoinLines;
    FiveLines(NOTICE, WARNING, LINK);
    EndsInFeed(NOTICE, WARNING, LINK);
  }

  lemma EndsInFeed(a: string, b: string, c: string)
    ensures HasSuffix(a + "\n" + (b + "\n" + (c + "\n" + "\n")), "\n")
  {
  }

  /** What Create adds: nothing if the line is there; else the line behind the old text, or behind the header of a new file. */
  lemma CreatedText(content: string, line: string)
    ensures Contains(content, line) ==> Created(content, line) == content
    ensures !Contains(content, line) && content == "" ==> Created(content, line) == Header() + line + "\n"
    ensures !Contains(content, line) && content != "" ==>
              Created(content, line) == content + (if content[|content| - 1] == '\n' then "" else "\n") + line + "\n"
  {
    hide Header;
    hide Contains;
    SuffixFeed(content);
    assert content + "" == content;
  }

  lemma SuffixFeed(s: string)
    ensures HasSuffix(s, "\n") <==> s != "" && s[|s| - 1] == '\n'
  {
  }

  lemma {:induction false} ClosedReads(content: string)
    requires content != ""
    ensures ScanLines(Closed(content)) == ScanLines(content) && (LongLine(Closed(content)) <==> LongLine(content))
    ensures var c := Closed(content); c != "" && c[|c| - 1] == '\n'
    decreases |content|
  {
    hide ScanLines;
    hide LongLine;
    var k := IndexOf(content, '\n');
    SuffixFeed(content);
    if HasSuffix(content, "\n") {
    } else if k == |content| {
      LastLine(content);
      ScanFirst(content, "");
      ScanNothing();
      assert content + "\n" + "" == content + "\n";
    } else {
      var a, rest := content[..k], content[k + 1..];
      assert content == a + "\n" + rest;
      SuffixFeed(rest);
      ClosedReads(rest);
      ScanFirst(a, rest);
      ScanFirst(a, rest + "\n");
      assert content + "\n" == a + "\n" + (rest + "\n");
    }
  }

  lemma LastLine(content: string)
    requires content != "" && IndexOf(content, '\n') == |content|
    ensures '\n' !in content
    ensures ScanLines(content) == [DropReturn(content)] && (LongLine(content) <==> |content| >= MAX_LINE)
  {
  }

  lemma TrimComment(s: string)
    requires s != "" && s[0] == '#'
    ensures Trim(s) != "" && Trim(s)[0] == '#'
  {
    TrimRightHead(s);
  }

  lemma {:induction false} TrimRightHead(s: string)
    requires s != "" && !White(s[0])
    ensures TrimRight(s) != "" && TrimRight(s)[0] == s[0]
    decreases |s|
  {
    if White(s[|s| - 1]) {
      TrimRightHead(s[..|s| - 1]);
    }
  }

  ghost predicate Comment(line: string) {
    line != "" && line[0] == '#'
  }

  ghost predicate CommentsOrBlank(lines: seq<string>) {
    forall i :: 0 <= i < |lines| ==> lines[i] == "" || Comment(lines[i])
  }

  lemma {:induction false} CommentsSayNothing(kind: string -> IpKind, zone: string, lines: seq<string>)
    requires CommentsOrBlank(lines)
    ensures Entries(kind, zone, Directives(lines)) == []
    decreases |lines|
  {
    hide Trim;
    if lines != [] {
      var n := |lines| - 1;
      CommentsSayNothing(kind, zone, lines[..n]);
      CommentSaysNothing(kind, zone, Directives(lines[..n]), lines[n]);
    }
  }

  lemma CommentSaysNothing(kind: string -> IpKind, zone: string, before: seq<string>, line: string)
    requires line == "" || Comment(line)
    ensures var more := if Trim(line) == "" then [] else [Trim(line)];
            Entries(kind, zone, before + more) == Entries(kind, zone, before)
  {
    if line == "" {
      assert before + [] == before;
    } else {
      TrimComment(line);
      var d := Trim(line);
      assert Meaning(kind, zone, d).None? by { assert d[..1] == "#"; }
      EntriesSnoc(kind, zone, before, d);
    }
  }

  lemma HeaderIs()
    ensures SingleLines(HEADER_LINES) && CommentsOrBlank(HEADER_LINES) && ShortLines(HEADER_LINES)
  {
    NoticeIs();
    WarningIs();
    LinkIs();
    FourPlain(NOTICE, WARNING, LINK);
  }

  lemma FourPlain(a: string, b: string, c: string)
    requires '\n' !in a && '\n' !in b && '\n' !in c && Comment(a) && Comment(b) && Comment(c)
    requires |a| < MAX_LINE && |b| < MAX_LINE && |c| < MAX_LINE
    ensures var lines := [a, b, c, "", ""]; SingleLines(lines) && CommentsOrBlank(lines) && ShortLines(lines)
  {
  }

  lemma NoticeIs()
    ensures '\n' !in NOTICE && Comment(NOTICE) && |NOTICE| < MAX_LINE
  {
    OneLine("# Managed by dnsweaver ", "- DO NOT EDIT MANUALLY", "");
    assert NOTICE + "" == NOTICE;
  }

  lemma WarningIs()
    ensures '\n' !in WARNING && Comment(WARNING) && |WARNING| < MAX_LINE
  {
    OneLine("# This file is automatically ", "generated and any manual ", "changes will be overwritten.");
  }

  lemma LinkIs()
    ensures '\n' !in LINK && Comment(LINK) && |LINK| < MAX_LINE
  {
    OneLine("# See https://github.com/", "maxfield-allison/dnsweaver ", "for more information.");
  }

  lemma OneLine(a: string, b: string, c: string)
    requires '\n' !in a && '\n' !in b && '\n' !in c && Comment(a)
    ensures '\n' !in a + b + c && Comment(a + b + c)
  {
  }

  /** The header is read as no record at all, and what follows it is read as if it were alone. */
  lemma HeaderReads(kind: string -> IpKind, zone: string, rest: string)
    ensures Entries(kind, zone, DirectivesOf(Header() + rest)) == Entries(kind, zone, DirectivesOf(rest))
    ensures LongLine(Header() + rest) <==> LongLine(rest)
  {
    hide Trim;
    hide Header;
    HeaderSaysNothing(kind, zone);
    ScanAppend(Header(), rest);
    DirectivesAppend(ScanLines(Header()), ScanLines(rest));
    EntriesAppend(kind, zone, DirectivesOf(Header()), DirectivesOf(rest));
    assert [] + Entries(kind, zone, DirectivesOf(rest)) == Entries(kind, zone, DirectivesOf(rest));
  }

  lemma HeaderSaysNothing(kind: string -> IpKind, zone: string)
    ensures var h := Header(); h != "" && h[|h| - 1] == '\n' && !LongLine(h)
    ensures Entries(kind, zone, DirectivesOf(Header())) == []
  {
    hide DirectivesOf;
    hide LongLine;
    HeaderIs();
    RejoinReads(HEADER_LINES);
    RejoinShort(HEADER_LINES);
    RejoinEnds(HEADER_LINES);
    CommentsSayNothing(kind, zone, HEADER_LINES);
  }

  lemma RejoinEnds(lines: seq<string>)
    requires |lines| > 1
    ensures var h := Rejoin(lines); h != "" && h[|h| - 1] == '\n'
  {
  }

  /** A record whose line survives in a file: readable, on one line, with nothing to trim, and not too long. */
  predicate Clean(kind: string -> IpKind, e: Entry) {
    && Readable(kind, e)
    && '\n' !in e.host
    && !White(e.target[|e.target| - 1])
    && |Format(e).value| < MAX_LINE
  }

  lemma CleanLine(kind: string -> IpKind, e: Entry)
    requires Clean(kind, e)
    ensures var line := Format(e).value;
            line != "" && Trim(line) == line && '\n' !in line && DropReturn(line) == line && !HasPrefix(line, "#")
  {
    hide Trim;
    hide DropReturn;
    var line := Format(e).value;
    assert line[0] !in "# " && line[|line| - 1] == e.target[|e.target| - 1];
    NothingToTrim(line);
  }

  lemma NothingToTrim(line: string)
    requires line != "" && !White(line[0]) && !White(line[|line| - 1])
    ensures Trim(line) == line && DropReturn(line) == line
  {
  }

  lemma CleanMeans(kind: string -> IpKind, zone: string, e: Entry)
    requires Clean(kind, e)
    ensures Meaning(kind, zone, Format(e).value) == if InZone(zone, e.host) then Some(e) else None
  {
    CleanLine(kind, e);
    ParseUndoesFormat(kind, e);
  }

  /** One clean line on its own. */
  lemma CleanReads(kind: string -> IpKind, zone: string, e: Entry)
    requires Clean(kind, e)
    ensures var line := Format(e).value;
            && DirectivesOf(line + "\n") == [line] && !LongLine(line + "\n")
            && Entries(kind, zone, [line]) == if InZone(zone, e.host) then [e] else []
  {
    hide Clean;
    assert Clean(kind, e);
    CleanLine(kind, e);
    CleanShort(kind, e);
    CleanMeans(kind, zone, e);
    var line := Format(e).value;
    ScanFirst(line, "");
    ScanNothing();
    assert line + "\n" + "" == line + "\n";
    DirectivesSnoc([], line);
    EntriesSnoc(kind, zone, [], line);
    assert [] + [line] == [line];
  }

  lemma CleanShort(kind: string -> IpKind, e: Entry)
    requires Clean(kind, e)
    ensures Format(e).Some? && |Format(e).value| < MAX_LINE
  {
  }

  /**
   * Create of a clean record appends exactly that record to what the file is read as, if its line is
   * not a piece of the file; otherwise it changes nothing.
   */
  lemma CreateAppends(kind: string -> IpKind, zone: string, content: string, e: Entry)
    requires Clean(kind, e) && Parse(kind, zone, content).Some?
    ensures var line := Format(e).value;
            Contains(content, line) ==> Created(content, line) == content
    ensures var line := Format(e).value;
            !Contains(content, line) ==>
              Parse(kind, zone, Created(content, line)) ==
              Some(Parse(kind, zone, content).value + (if InZone(zone, e.host) then [e] else []))
  {
    hide Clean;
    hide LongLine;
    hide DirectivesOf;
    hide Closed;
    hide Header;
    assert Clean(kind, e);
    CleanShort(kind, e);
    var line := Format(e).value;
    CleanReads(kind, zone, e);
    if !Contains(content, line) {
      if content == "" {
        HeaderReads(kind, zone, line + "\n");
        EmptyReads(kind, zone);
        assert Header() + line + "\n" == Header() + (line + "\n");
      } else {
        ClosedAppends(kind, zone, content, line);
        assert Closed(content) + line + "\n" == Closed(content) + (line + "\n");
      }
    }
  }

  lemma EmptyReads(kind: string -> IpKind, zone: string)
    ensures Entries(kind, zone, DirectivesOf("")) == []
  {
  }

  lemma ClosedAppends(kind: string -> IpKind, zone: string, content: string, line: string)
    requires content != ""
    ensures Entries(kind, zone, DirectivesOf(Closed(content) + (line + "\n")))
         == Entries(kind, zone, DirectivesOf(content)) + Entries(kind, zone, DirectivesOf(line + "\n"))
    ensures LongLine(Closed(content) + (line + "\n")) <==> LongLine(content) || LongLine(line + "\n")
  {
    ClosedReads(content);
    ScanAppend(Closed(content), line + "\n");
    DirectivesAppend(ScanLines(content), ScanLines(line + "\n"));
    EntriesAppend(kind, zone, DirectivesOf(content), DirectivesOf(line + "\n"));
  }

  /** After Create, the record is read exactly when it was read before or its line was nowhere in the file. */
  lemma CreatedIsReadExactlyWhen(kind: string -> IpKind, zone: string, content: string, e: Entry)
    requires Clean(kind, e) && InZone(zone, e.host) && Parse(kind, zone, content).Some?
    ensures var after := Parse(kind, zone, Created(content, Format(e).value));
            after.Some? &&
            (e in after.value <==> e in Parse(kind, zone, content).value || !Contains(content, Format(e).value))
  {
    hide Parse;
    CleanShort(kind, e);
    CreateAppends(kind, zone, content, e);
  }

  /**
   * Create skips a record whose line starts another one's: with only 10.0.0.10 in the file, 10.0.0.1
   * for the same host is taken to be there already.
   */
  lemma LongerTargetHides(kind: string -> IpKind, zone: string, e: Entry, longer: Entry, more: string)
    requires Clean(kind, e) && Clean(kind, longer) && InZone(zone, e.host)
    requires longer.host == e.host && longer.rtype == e.rtype && longer.target == e.target + more && more != ""
    ensures var content := Format(longer).value + "\n";
            && Created(content, Format(e).value) == content
            && Parse(kind, zone, content) == Some([longer])
            && e !in Parse(kind, zone, content).value
  {
    hide Clean;
    hide InZone;
    hide LongLine;
    hide Contains;
    CleanShort(kind, e);
    CleanShort(kind, longer);
    LongerFormat(e, longer, more);
    StartsFile(Format(e).value, more + "\n");
    assert Format(longer).value + "\n" == Format(e).value + (more + "\n");
    CleanReads(kind, zone, longer);
  }

  lemma StartsFile(line: string, rest: string)
    ensures Contains(line + rest, line)
  {
    var content := line + rest;
    assert content[0..] == content && content[..|line|] == line;
    assert HasPrefix(content[0..], line);
  }

  lemma LongerFormat(e: Entry, longer: Entry, more: string)
    requires longer.host == e.host && longer.rtype == e.rtype && longer.target == e.target + more
    requires Format(e).Some? && Format(longer).Some?
    ensures Format(longer).value == Format(e).value + more
  {
  }

  // ---- WriteRecords ----

  function Formats(entries: seq<Entry>): Option<seq<string>> {
    if entries == [] then Some([])
    else
      var n := |entries| - 1;
      var front := Formats(entries[..n]);
      var line := Format(entries[n]);
      if front.Some? && line.Some? then Some(front.value + [line.value]) else None
  }

  /** The file after WriteRecords. */
  function Rewritten(lines: seq<string>): string {
    Header() + JoinLines(lines) + (if lines != [] then "\n" else "")
  }

  /** Every line with a line feed behind it. */
  function Terminated(lines: seq<string>): string {
    if lines == [] then "" else lines[0] + "\n" + Terminated(lines[1..])
  }

  /** WriteRecords puts the header first, and then each line. */
  lemma RewrittenText(lines: seq<string>)
    ensures Rewritten(lines) == Header() + Terminated(lines)
  {
    hide Header;
    if lines == [] {
      assert Header() + "" + "" == Header() + "";
    } else {
      JoinedTerminated(lines);
      assert Header() + JoinLines(lines) + "\n" == Header() + (JoinLines(lines) + "\n");
    }
  }

  lemma {:induction false} JoinedTerminated(lines: seq<string>)
    requires lines != []
    ensures JoinLines(lines) + "\n" == Terminated(lines)
  {
    if |lines| == 1 {
      assert lines[0] + "\n" + "" == lines[0] + "\n";
    } else {
      JoinedTerminated(lines[1..]);
      assert lines[0] + "\n" + JoinLines(lines[1..]) + "\n" == lines[0] + "\n" + (JoinLines(lines[1..]) + "\n");
    }
  }

  ghost predicate AllClean(kind: string -> IpKind, entries: seq<Entry>) {
    forall i :: 0 <= i < |entries| ==> Clean(kind, entries[i])
  }

  function Zoned(zone: string, entries: seq<Entry>): seq<Entry> {
    if entries == [] then []
    else
      var n := |entries| - 1;
      Zoned(zone, entries[..n]) + (if InZone(zone, entries[n].host) then [entries[n]] else [])
  }

  /** Lines that survive a file: one line each, nothing to trim, not blank, not too long. */
  ghost predicate PlainLines(lines: seq<string>) {
    forall i :: 0 <= i < |lines| ==>
      lines[i] != "" && Trim(lines[i]) == lines[i] && '\n' !in lines[i] && |lines[i]| < MAX_LINE
  }

  lemma {:induction false} FormatsRead(kind: string -> IpKind, zone: string, entries: seq<Entry>)
    requires AllClean(kind, entries)
    ensures Formats(entries).Some? && |Formats(entries).value| == |entries| && PlainLines(Formats(entries).value)
    ensures Directives(Formats(entries).value) == Formats(entries).value
    ensures Entries(kind, zone, Formats(entries).value) == Zoned(zone, entries)
    decreases |entries|
  {
    hide Clean;
    hide Trim;
    hide Meaning;
    hide InZone;
    hide Format;
    if entries != [] {
      var n := |entries| - 1;
      FormatsRead(kind, zone, entries[..n]);
      CleanLine(kind, entries[n]);
      CleanShort(kind, entries[n]);
      CleanMeans(kind, zone, entries[n]);
      var lines, line := Formats(entries[..n]).value, Format(entries[n]).value;
      DirectivesSnoc(lines, line);
      EntriesSnoc(kind, zone, lines, line);
    }
  }

  lemma {:induction false} JoinedNotFeed(lines: seq<string>)
    requires PlainLines(lines) && lines != []
    ensures JoinLines(lines) != "" && !HasSuffix(JoinLines(lines), "\n")
    decreases |lines|
  {
    var j := JoinLines(lines);
    SuffixFeed(j);
    if |lines| == 1 {
      NoFeedAtEnd(lines[0]);
    } else {
      JoinedNotFeed(lines[1..]);
      SuffixFeed(JoinLines(lines[1..]));
      assert j == (lines[0] + "\n") + JoinLines(lines[1..]);
    }
  }

  /** Reading back what WriteRecords wrote gives the records of the zone, in order. */
  lemma WriteThenRead(kind: string -> IpKind, zone: string, entries: seq<Entry>)
    requires AllClean(kind, entries)
    ensures Formats(entries).Some?
    ensures Parse(kind, zone, Rewritten(Formats(entries).value)) == Some(Zoned(zone, entries))
  {
    hide DirectivesOf;
    hide LongLine;
    hide Header;
    hide Clean;
    FormatsRead(kind, zone, entries);
    var lines := Formats(entries).value;
    var tail := Rejoin(lines);
    if lines != [] {
      JoinedNotFeed(lines);
    }
    assert Rewritten(lines) == Header() + tail by {
      assert Header() + JoinLines(lines) + "\n" == Header() + (JoinLines(lines) + "\n");
      assert Header() + JoinLines(lines) + "" == Header() + JoinLines(lines);
    }
    HeaderReads(kind, zone, tail);
    RejoinReads(lines);
    RejoinShort(lines);
  }

  // ---- The client ----

  datatype FileRead = Absent | Unread | Text(text: string)

  /** A file that may be missing; reading and writing it may fail, and a failed write may leave anything. */
  class Client {
    const kind: string -> IpKind
    const zone: string
    var file: Option<string>

    constructor (kind: string -> IpKind, zone: string, file: Option<string>)
      ensures this.kind == kind && this.zone == zone && this.file == file
    {
      this.kind, this.zone, this.file := kind, zone, file;
    }

    method ReadFile() returns (r: FileRead)
      ensures r.Absent? ==> file.None?
      ensures r.Text? ==> file == Some(r.text)
    {
      var fails: bool := *;
      r := if fails then Unread else if file.None? then Absent else Text(file.value);
    }

    method WriteFile(text: string) returns (ok: bool)
      modifies this
      ensures ok ==> file == Some(text)
    {
      ok := *;
      var left := *;
      file := if ok then Some(text) else left;
    }

    /** parseConfigContent: the loop over the scanned lines. */
    method ParseConfigContent(content: string) returns (r: Option<seq<Entry>>)
      ensures r == Parse(kind, zone, content)
    {
      hide Trim;
      hide ParseLine;
      hide InZone;
      var lines := ScanLines(content);
      var records := [];
      for i := 0 to |lines|
        invariant records == Entries(kind, zone, Directives(lines[..i]))
      {
        assert lines[..i + 1] == lines[..i] + [lines[i]];
        DirectivesSnoc(lines[..i], lines[i]);
        var line := Trim(lines[i]);
        EntriesSnoc(kind, zone, Directives(lines[..i]), line);
        assert Directives(lines[..i]) + [] == Directives(lines[..i]);
        if line == "" || HasPrefix(line, "#") { continue; }
        var record := ParseLine(kind, line);
        if record.Some? && InZone(zone, record.value.host) {
          records := records + [record.value];
        }
      }
      assert lines[..|lines|] == lines;
      return if LongLine(content) then None else Some(records);
    }

    /** List. */
    method List() returns (r: Option<seq<Entry>>)
      ensures r.Some? ==> r == if file.None? then Some([]) else Parse(kind, zone, file.value)
    {
      var read := ReadFile();
      match read
      case Absent => return Some([]);
      case Unread => return None;
      case Text(text) => r := ParseConfigContent(text);
    }

    /** Create. */
    method Create(e: Entry) returns (ok: bool)
      modifies this
      ensures Format(e).None? ==> !ok && file == old(file)
      ensures ok ==>
                var before := if old(file).Some? then old(file).value else "";
                file == if Contains(before, Format(e).value) then old(file) else Some(Created(before, Format(e).value))
    {
      var read := ReadFile();
      if read.Unread? { return false; }
      var existing := if read.Text? then read.text else "";
      var line := Format(e);
      if line.None? { return false; }
      if Contains(existing, line.value) { return true; }
      var text;
      if |existing| > 0 {
        if !HasSuffix(existing, "\n") {
          existing := existing + "\n";
        }
        text := existing + line.value + "\n";
      } else {
        text := Header() + line.value + "\n";
      }
      ok := WriteFile(text);
    }

    /** Delete. */
    method Delete(e: Entry) returns (ok: bool)
      modifies this
      ensures Format(e).None? && ok ==> old(file).None?
      ensures Format(e).None? ==> file == old(file)
      ensures old(file).Some? && LongLine(old(file).value) ==> !ok && file == old(file)
      ensures ok && Format(e).Some? ==>
                file == if old(file).None? then None else Some(Deleted(old(file).value, Format(e).value))
    {
      hide Trim;
      hide Format;
      var read := ReadFile();
      if read.Absent? { return true; }
      if read.Unread? { return false; }
      var target := Format(e);
      if target.None? { return false; }
      var lines := ScanLines(read.text);
      var kept := [];
      var removed := false;
      for i := 0 to |lines|
        invariant kept == OtherLines(lines[..i], target.value)
        invariant removed <==> |kept| < i
        invariant |kept| <= i
      {
        assert lines[..i + 1][..i] == lines[..i];
        if Trim(lines[i]) == target.value {
          removed := true;
          continue;
        }
        kept := kept + [lines[i]];
      }
      assert lines[..|lines|] == lines;
      if LongLine(read.text) { return false; }
      if !removed { return true; }
      var text := JoinLines(kept);
      if |kept| > 0 && !HasSuffix(text, "\n") {
        text := text + "\n";
      }
      ok := WriteFile(text);
    }

    /** WriteRecords. */
    method WriteRecords(entries: seq<Entry>) returns (ok: bool)
      modifies this
      ensures Formats(entries).None? ==> !ok && file == old(file)
      ensures ok ==> file == Some(Rewritten(Formats(entries).value))
    {
      hide Format;
      hide Header;
      var lines := [];
      for i := 0 to |entries|
        invariant Formats(entries[..i]) == Some(lines)
      {
        assert entries[..i + 1][..i] == entries[..i];
        var line := Format(entries[i]);
        if line.None? {
          FormatsFail(entries, i);
          return false;
        }
        lines := lines + [line.value];
      }
      assert entries[..|entries|] == entries;
      var text := Header() + JoinLines(lines);
      assert text + "" == text;
      if |lines| > 0 {
        text := text + "\n";
      }
      ok := WriteFile(text);
    }
  }

  lemma {:induction false} FormatsFail(entries: seq<Entry>, i: nat)
    requires i < |entries| && Format(entries[i]).None?
    ensures Formats(entries).None?
    decreases |entries|
  {
    if i < |entries| - 1 {
      FormatsFail(entries[..|entries| - 1], i);
    }
  }
}
