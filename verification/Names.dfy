/** Host names: canonical form, validity, and the names of ownership markers. */
module Names {
  import opened Strings

  function LowerChar(c: char): char {
    if 'A' <= c <= 'Z' then (c as int + 32) as char else c
  }

  /** strings.ToLower on ASCII. */
  function Lower(s: string): (r: string) {
    seq(|s|, i requires 0 <= i < |s| => LowerChar(s[i]))
  }

  /** strings.TrimSuffix(s, "."). */
  function TrimDot(s: string): string {
    if |s| > 0 && s[|s| - 1] == '.' then s[..|s| - 1] else s
  }

  function Normalize(host: string): string {
    Lower(TrimDot(host))
  }

  const PREFIX := "_dnsweaver."

  /** The name of the TXT record that marks `host` as owned. */
  function Marker(host: string): string {
    PREFIX + host
  }

  predicate IsMarkerName(name: string) {
    |name| > |PREFIX| && HasPrefix(name, PREFIX)
  }

  function MarkedHost(name: string): string {
    if IsMarkerName(name) then name[|PREFIX|..] else ""
  }

  /** Encoding a host in a marker name and decoding it again is the identity, and only marker names decode. */
  lemma MarkerRoundTrip(host: string, name: string)
    ensures host != "" ==> IsMarkerName(Marker(host)) && MarkedHost(Marker(host)) == host
    ensures IsMarkerName(name) ==> MarkedHost(name) != "" && Marker(MarkedHost(name)) == name
    ensures IsMarkerName(name) <==> MarkedHost(name) != ""
  {
  }

  /** The marker of a host, made canonical, is the prefix before the canonical host. */
  lemma NormalizeMarker(host: string)
    requires host != ""
    ensures Normalize(Marker(host)) == PREFIX + Normalize(host)
  {
  }

  /** Two hosts share a marker exactly when they are the same name. */
  lemma MarkerInjective(a: string, b: string)
    requires a != "" && b != ""
    ensures Normalize(Marker(a)) == Normalize(Marker(b)) <==> Normalize(a) == Normalize(b)
  {
    NormalizeMarker(a);
    NormalizeMarker(b);
    assert (PREFIX + Normalize(a))[|PREFIX|..] == Normalize(a);
    assert (PREFIX + Normalize(b))[|PREFIX|..] == Normalize(b);
  }

  /** Equality under case folding alone is finer than equality of canonical names. */
  lemma EqualFoldNormalizes(a: string, b: string)
    requires Lower(a) == Lower(b)
    ensures Normalize(a) == Normalize(b)
  {
    assert |a| == |Lower(a)| == |Lower(b)| == |b|;
    if |a| > 0 {
      assert Lower(a)[|a| - 1] == LowerChar(a[|a| - 1]);
      assert Lower(b)[|a| - 1] == LowerChar(b[|a| - 1]);
      assert Lower(a[..|a| - 1]) == Lower(a)[..|a| - 1];
      assert Lower(b[..|b| - 1]) == Lower(b)[..|b| - 1];
    }
  }

  // ---- Validity (RFC 1123 host names and RFC 2782 service names) ----

  predicate AlphaNumeric(c: char) {
    'a' <= c <= 'z' || 'A' <= c <= 'Z' || '0' <= c <= '9'
  }

  predicate WordBody(s: string) {
    && |s| > 0
    && AlphaNumeric(s[0])
    && AlphaNumeric(s[|s| - 1])
    && forall i :: 0 <= i < |s| ==> AlphaNumeric(s[i]) || s[i] == '-'
  }

  predicate ValidLabel(word: string) {
    |word| <= 63 && WordBody(word)
  }

  predicate ValidServiceLabel(word: string) {
    1 <= |word| <= 63 && word[0] == '_' && WordBody(word[1..])
  }

  predicate ValidHost(host: string) {
    var h := TrimDot(host);
    var labels := Split(h, '.');
    && 0 < |h| <= 253
    && (labels[0] == "*" || ValidLabel(labels[0]))
    && forall i :: 1 <= i < |labels| ==> ValidLabel(labels[i])
  }

  predicate ValidService(host: string) {
    var h := TrimDot(host);
    var labels := Split(h, '.');
    && 0 < |h| <= 253
    && |labels| >= 3
    && ValidServiceLabel(labels[0])
    && ValidServiceLabel(labels[1])
    && forall i :: 2 <= i < |labels| ==> ValidLabel(labels[i])
  }

  // ---- Which texts are valid, label by label ----

  /** The labels with dots between them. */
  function Dotted(labels: seq<string>): string {
    if labels == [] then ""
    else if |labels| == 1 then labels[0]
    else labels[0] + ['.'] + Dotted(labels[1..])
  }

  /** 1 to 63 letters, digits and hyphens, with no hyphen first or last. */
  predicate HostLabel(s: string) {
    && 1 <= |s| <= 63
    && (forall c :: c in s ==> 'a' <= c <= 'z' || 'A' <= c <= 'Z' || '0' <= c <= '9' || c == '-')
    && s[0] != '-' && s[|s| - 1] != '-'
  }

  /** The same behind an underscore, which counts as one of the 63. */
  predicate ServiceLabel(s: string) {
    2 <= |s| <= 63 && s[0] == '_' && HostLabel(s[1..])
  }

  /** At most 253 characters, and perhaps a dot after them. */
  predicate Spells(labels: seq<string>, name: string) {
    |Dotted(labels)| <= 253 && (name == Dotted(labels) || name == Dotted(labels) + ['.'])
  }

  /** One or more host labels, of which the first may be a wildcard. */
  ghost predicate HostName(name: string) {
    exists labels: seq<string> ::
      && Spells(labels, name)
      && labels != []
      && (labels[0] == "*" || HostLabel(labels[0]))
      && forall i :: 1 <= i < |labels| ==> HostLabel(labels[i])
  }

  /** Two service labels and one or more host labels. */
  ghost predicate ServiceName(name: string) {
    exists labels: seq<string> ::
      && Spells(labels, name)
      && |labels| >= 3
      && ServiceLabel(labels[0]) && ServiceLabel(labels[1])
      && forall i :: 2 <= i < |labels| ==> HostLabel(labels[i])
  }

  lemma WordIsLabel(s: string)
    ensures ValidLabel(s) <==> HostLabel(s)
    ensures ValidServiceLabel(s) <==> ServiceLabel(s)
  {
    LettersOf(s);
    if s != "" { LettersOf(s[1..]); }
  }

  lemma LettersOf(s: string)
    ensures (forall c :: c in s ==> 'a' <= c <= 'z' || 'A' <= c <= 'Z' || '0' <= c <= '9' || c == '-')
       <==> forall i :: 0 <= i < |s| ==> AlphaNumeric(s[i]) || s[i] == '-'
  {
    forall i | 0 <= i < |s| ensures s[i] in s { }
  }

  lemma DottedStep(first: string, labels: seq<string>)
    requires labels != []
    ensures Dotted([first] + labels) == first + ['.'] + Dotted(labels)
  {
    assert ([first] + labels)[1..] == labels;
  }

  lemma {:induction false} DottedSplit(s: string)
    ensures Dotted(Split(s, '.')) == s
    decreases |s|
  {
    hide Split;
    SplitStep(s);
    var k := IndexOf(s, '.');
    if k < |s| {
      DottedSplit(s[k + 1..]);
      DottedStep(s[..k], Split(s[k + 1..], '.'));
      assert s == s[..k] + ['.'] + s[k + 1..];
    }
  }

  lemma {:induction false} SplitDotted(labels: seq<string>)
    requires labels != [] && forall i :: 0 <= i < |labels| ==> '.' !in labels[i]
    ensures Split(Dotted(labels), '.') == labels
  {
    if |labels| == 1 {
      SplitWhole(labels[0], '.');
    } else {
      SplitDotted(labels[1..]);
      SplitAppend(labels[0], '.', Dotted(labels[1..]));
    }
  }

  lemma {:induction false} DottedEnds(labels: seq<string>)
    requires labels != [] && labels[|labels| - 1] != ""
    ensures var s, last := Dotted(labels), labels[|labels| - 1]; s != "" && s[|s| - 1] == last[|last| - 1]
  {
    if |labels| > 1 { DottedEnds(labels[1..]); }
  }

  /** Labels without dots, the last of them not empty, are what splitting the trimmed name yields. */
  lemma SpelledSplit(labels: seq<string>, name: string)
    requires Spells(labels, name) && labels != [] && labels[|labels| - 1] != ""
    requires forall i :: 0 <= i < |labels| ==> '.' !in labels[i]
    ensures TrimDot(name) == Dotted(labels) && Split(TrimDot(name), '.') == labels && TrimDot(name) != ""
  {
    SplitDotted(labels);
    DottedEnds(labels);
    var last := labels[|labels| - 1];
    assert last[|last| - 1] in last;
  }

  lemma TrimmedSpells(name: string)
    requires |TrimDot(name)| <= 253
    ensures Spells(Split(TrimDot(name), '.'), name)
  {
    DottedSplit(TrimDot(name));
  }

  lemma DotFree(s: string)
    requires s == "*" || HostLabel(s) || ServiceLabel(s)
    ensures '.' !in s && s != ""
  {
    if ServiceLabel(s) { assert s == [s[0]] + s[1..]; }
  }

  /** A text is accepted as a host name exactly when its labels make it one. */
  lemma ValidHostExactlyWhen(name: string)
    ensures ValidHost(name) <==> HostName(name)
  {
    hide HostLabel;
    hide ValidLabel;
    hide Split;
    hide Spells;
    hide TrimDot;
    forall s ensures ValidLabel(s) <==> HostLabel(s) { WordIsLabel(s); }
    if ValidHost(name) { TrimmedSpells(name); }
    if HostName(name) {
      var labels: seq<string> :| Spells(labels, name) && labels != [] && (labels[0] == "*" || HostLabel(labels[0]))
        && forall i :: 1 <= i < |labels| ==> HostLabel(labels[i]);
      forall i | 0 <= i < |labels| ensures '.' !in labels[i] && labels[i] != "" { DotFree(labels[i]); }
      SpelledSplit(labels, name);
      assert |Dotted(labels)| <= 253 by { SpellsShort(labels, name); }
    }
  }

  lemma SpellsShort(labels: seq<string>, name: string)
    requires Spells(labels, name)
    ensures |Dotted(labels)| <= 253
  {
  }

  /** And as a service name exactly when they make it that. */
  lemma ValidServiceExactlyWhen(name: string)
    ensures ValidService(name) <==> ServiceName(name)
  {
    hide HostLabel;
    hide ServiceLabel;
    hide ValidLabel;
    hide ValidServiceLabel;
    hide Split;
    hide Spells;
    hide TrimDot;
    forall s ensures (ValidLabel(s) <==> HostLabel(s)) && (ValidServiceLabel(s) <==> ServiceLabel(s)) { WordIsLabel(s); }
    if ValidService(name) { TrimmedSpells(name); }
    if ServiceName(name) {
      var labels: seq<string> :| Spells(labels, name) && |labels| >= 3 && ServiceLabel(labels[0]) && ServiceLabel(labels[1])
        && forall i :: 2 <= i < |labels| ==> HostLabel(labels[i]);
      forall i | 0 <= i < |labels| ensures '.' !in labels[i] && labels[i] != "" { DotFree(labels[i]); }
      SpelledSplit(labels, name);
      SpellsShort(labels, name);
    }
  }

  /** The canonical form, character by character: ASCII capitals lowered, one trailing dot gone. */
  lemma NormalizeExactly(name: string)
    ensures var n := if name != "" && name[|name| - 1] == '.' then |name| - 1 else |name|;
            && |Normalize(name)| == n
            && forall i :: 0 <= i < n ==>
                 Normalize(name)[i] == if 'A' <= name[i] <= 'Z' then (name[i] - 'A' + 'a') else name[i]
  {
  }

  // ---- How the labels of a valid name start, in a form that survives lower-casing ----

  ghost predicate Underscored(word: string) {
    |word| > 0 && word[0] == '_'
  }

  lemma {:induction false} IndexOfLower(s: string)
    ensures IndexOf(Lower(s), '.') == IndexOf(s, '.')
  {
    if s != [] && s[0] != '.' {
      assert Lower(s)[1..] == Lower(s[1..]);
      IndexOfLower(s[1..]);
    }
  }

  lemma LowerCut(s: string, k: nat)
    requires k <= |s|
    ensures |Lower(s)| == |s| && Lower(s)[..k] == Lower(s[..k])
    ensures k < |s| ==> Lower(s)[k + 1..] == Lower(s[k + 1..])
  {
  }

  lemma SplitStep(s: string)
    ensures var k := IndexOf(s, '.');
            Split(s, '.') == if k == |s| then [s] else [s[..k]] + Split(s[k + 1..], '.')
  {
    hide IndexOf;
  }

  lemma {:induction false} SplitLower(s: string)
    ensures |Split(Lower(s), '.')| == |Split(s, '.')|
    ensures forall i :: 0 <= i < |Split(s, '.')| ==> Split(Lower(s), '.')[i] == Lower(Split(s, '.')[i])
    decreases |s|
  {
    hide Lower;
    hide Split;
    IndexOfLower(s);
    var k := IndexOf(s, '.');
    LowerCut(s, k);
    SplitStep(s);
    SplitStep(Lower(s));
    if k < |s| {
      SplitLower(s[k + 1..]);
    }
  }

  lemma FirstLabels(host: string)
    requires ValidHost(host) || ValidService(host)
    ensures host != "" && Normalize(host) != ""
    ensures ValidHost(host) ==> !Underscored(Split(Normalize(host), '.')[0])
    ensures ValidService(host) ==>
              var labels := Split(Normalize(host), '.');
              |labels| >= 3 && Underscored(labels[0]) && Underscored(labels[1]) && !Underscored(labels[2])
  {
    SplitLower(TrimDot(host));
  }

  /** The name of a valid host or service is never the marker name of another. */
  lemma ValidNeverMarker(a: string, b: string)
    requires ValidHost(a) || ValidService(a)
    requires ValidHost(b) || ValidService(b)
    ensures Normalize(a) != Normalize(Marker(b))
  {
    hide ValidHost;
    hide ValidService;
    hide Lower;
    FirstLabels(a);
    FirstLabels(b);
    NormalizeMarker(b);
    assert PREFIX == "_dnsweaver" + ['.'];
    SplitAppend("_dnsweaver", '.', Normalize(b));
  }

  /** A valid host, unlike a service name, never looks like any marker at all. */
  lemma ValidHostNotMarker(a: string, b: string)
    requires ValidHost(a) && b != ""
    ensures Normalize(a) != Normalize(Marker(b))
  {
    FirstLabels(a);
    NormalizeMarker(b);
    assert PREFIX == "_dnsweaver" + ['.'];
    SplitAppend("_dnsweaver", '.', Normalize(b));
  }

  lemma {:induction false} LastPart(s: string, d: char)
    requires s != "" && s[|s| - 1] == d
    ensures var parts := Split(s, d); |parts| > 1 && parts[|parts| - 1] == ""
    decreases |s|
  {
    assert d in s;
    var k := IndexOf(s, d);
    assert s[..|s|] == s;
    assert k < |s|;
    var rest := s[k + 1..];
    if rest != "" {
      LastPart(rest, d);
    }
  }

  /** The canonical form of a valid name is its own canonical form. */
  lemma ValidCanonical(host: string)
    requires ValidHost(host) || ValidService(host)
    ensures Normalize(host) != "" && Normalize(Normalize(host)) == Normalize(host)
  {
    var h := TrimDot(host);
    if h[|h| - 1] == '.' {
      LastPart(h, '.');
      assert false;
    }
    var n := Lower(h);
    assert n[|n| - 1] == LowerChar(h[|h| - 1]);
    assert TrimDot(n) == n;
    assert Lower(n) == n;
  }
}
