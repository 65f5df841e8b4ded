/** String helpers of the Go standard library that the modelled code calls. */
module Strings {

  /** ASCII white space. */
  predicate White(c: char) {
    c == ' ' || '\t' <= c <= '\r'
  }

  predicate HasPrefix(s: string, p: string) {
    |p| <= |s| && s[..|p|] == p
  }

  /** The first position of `d` in `s`, or |s| when there is none. */
  function IndexOf(s: string, d: char): (k: nat)
    ensures k <= |s|
    ensures d !in s[..k]
    ensures k < |s| ==> s[k] == d
    ensures d !in s ==> k == |s|
  {
    if s == [] || s[0] == d then 0
    else
      var k := 1 + IndexOf(s[1..], d);
      assert s[..k] == [s[0]] + s[1..][..k - 1];
      k
  }

  lemma IndexOfAppend(a: string, d: char, b: string)
    requires d !in a
    ensures IndexOf(a + [d] + b, d) == |a|
  {
    if a == [] {
      assert (a + [d] + b)[0] == d;
    } else {
      assert (a + [d] + b)[1..] == a[1..] + [d] + b;
      IndexOfAppend(a[1..], d, b);
    }
  }

  /** strings.Split for a one-character separator. */
  function Split(s: string, d: char): (parts: seq<string>)
    ensures |parts| > 0
    ensures forall p :: p in parts ==> d !in p
    decreases |s|
  {
    var k := IndexOf(s, d);
    if k == |s| then
      assert s[..k] == s;
      [s]
    else [s[..k]] + Split(s[k + 1..], d)
  }

  lemma SplitAppend(a: string, d: char, b: string)
    requires d !in a
    ensures Split(a + [d] + b, d) == [a] + Split(b, d)
  {
    IndexOfAppend(a, d, b);
    var s := a + [d] + b;
    assert s[..|a|] == a && s[|a| + 1..] == b;
  }

  lemma SplitWhole(s: string, d: char)
    requires d !in s
    ensures Split(s, d) == [s]
  {
  }

  /** Two texts cut at their first `d` agree only if both halves agree. */
  lemma CutUnique(a: string, b: string, x: string, y: string, d: char)
    requires d !in a && d !in b
    requires a + [d] + x == b + [d] + y
    ensures a == b && x == y
  {
    IndexOfAppend(a, d, x);
    IndexOfAppend(b, d, y);
    var s := a + [d] + x;
    assert s[..|a|] == a && s[..|b|] == b && s[|a| + 1..] == x && s[|b| + 1..] == y;
  }

  /** The order sort.Strings uses. */
  predicate AtMost(a: string, b: string) {
    a == [] || (b != [] && (a[0] < b[0] || (a[0] == b[0] && AtMost(a[1..], b[1..]))))
  }

  /** A prefix comes first, and else the first byte that differs decides. */
  lemma {:induction false} AtMostExactly(a: string, b: string)
    ensures AtMost(a, b) <==>
              HasPrefix(b, a) || exists i :: 0 <= i < |a| && i < |b| && a[..i] == b[..i] && a[i] < b[i]
  {
    if a != [] && b != [] && a[0] == b[0] {
      AtMostExactly(a[1..], b[1..]);
      PrefixTails(a, b);
      if i :| 0 <= i < |a[1..]| && i < |b[1..]| && a[1..][..i] == b[1..][..i] && a[1..][i] < b[1..][i] {
        assert a[..i + 1] == [a[0]] + a[1..][..i] && b[..i + 1] == [b[0]] + b[1..][..i];
        assert a[i + 1] < b[i + 1];
      }
      forall i | 0 <= i < |a| && i < |b| && a[..i] == b[..i] && a[i] < b[i]
        ensures 0 < i && a[1..][..i - 1] == b[1..][..i - 1] && a[1..][i - 1] < b[1..][i - 1]
      {
        assert a[1..][..i - 1] == a[..i][1..] && b[1..][..i - 1] == b[..i][1..];
      }
    }
  }

  lemma PrefixTails(a: string, b: string)
    requires a != [] && b != [] && a[0] == b[0]
    ensures HasPrefix(b, a) <==> HasPrefix(b[1..], a[1..])
  {
    if |a| <= |b| {
      assert b[..|a|] == [b[0]] + b[1..][..|a| - 1] && a == [a[0]] + a[1..];
    }
  }

  lemma AtMostTotal(a: string, b: string)
    ensures AtMost(a, b) || AtMost(b, a)
    ensures AtMost(a, b) && AtMost(b, a) ==> a == b
  {
  }

  lemma AtMostTransitive(a: string, b: string, c: string)
    requires AtMost(a, b) && AtMost(b, c)
    ensures AtMost(a, c)
  {
  }

  ghost predicate Sorted(s: seq<string>) {
    forall i, j :: 0 <= i < j < |s| ==> AtMost(s[i], s[j])
  }

  ghost predicate Distinct<T>(s: seq<T>) {
    forall i, j :: 0 <= i < j < |s| ==> s[i] != s[j]
  }

  function Except<T(==, !new)>(s: seq<T>, x: T): (r: seq<T>)
    ensures forall y :: y in r <==> y in s && y != x
  {
    if s == [] then []
    else
      var n := |s| - 1;
      assert s == s[..n] + [s[n]];
      Except(s[..n], x) + (if s[n] == x then [] else [s[n]])
  }

  function Insert(x: string, s: seq<string>): (r: seq<string>)
    ensures multiset(r) == multiset(s) + multiset{x}
  {
    if s == [] || AtMost(x, s[0]) then [x] + s
    else
      assert s == [s[0]] + s[1..];
      [s[0]] + Insert(x, s[1..])
  }

  /** sort.Strings. */
  function Sort(s: seq<string>): (r: seq<string>)
    ensures multiset(r) == multiset(s)
  {
    if s == [] then []
    else
      assert s == [s[0]] + s[1..];
      Insert(s[0], Sort(s[1..]))
  }

  lemma SameMultisetSameElements<T>(a: seq<T>, b: seq<T>)
    requires multiset(a) == multiset(b)
    ensures |a| == |b|
    ensures forall x :: x in a <==> x in b
  {
    assert |multiset(a)| == |a| && |multiset(b)| == |b|;
    forall x ensures x in a <==> x in b {
      assert x in a <==> x in multiset(a);
      assert x in b <==> x in multiset(b);
    }
  }

  lemma {:induction false} InsertSorted(x: string, s: seq<string>)
    requires Sorted(s)
    ensures Sorted(Insert(x, s))
  {
    var r := Insert(x, s);
    if s == [] {
    } else if AtMost(x, s[0]) {
      forall j | 0 < j < |r| ensures AtMost(r[0], r[j]) {
        assert r[j] == s[j - 1];
        if j > 1 { AtMostTransitive(x, s[0], s[j - 1]); }
      }
    } else {
      var t := Insert(x, s[1..]);
      InsertSorted(x, s[1..]);
      AtMostTotal(x, s[0]);
      forall j | 0 < j < |r| ensures AtMost(r[0], r[j]) {
        assert r[j] == t[j - 1] && t[j - 1] in multiset(t);
        assert t[j - 1] in multiset(s[1..]) + multiset{x};
        assert t[j - 1] == x || t[j - 1] in s[1..];
      }
      assert forall i, j :: 0 < i < j < |r| ==> r[i] == t[i - 1] && r[j] == t[j - 1];
    }
  }

  lemma {:induction false} SortSorted(s: seq<string>)
    ensures Sorted(Sort(s))
  {
    if s != [] {
      SortSorted(s[1..]);
      InsertSorted(s[0], Sort(s[1..]));
    }
  }

  lemma SortedHeads(a: seq<string>, b: seq<string>)
    requires Sorted(a) && Sorted(b) && a != [] && b != [] && a[0] in b && b[0] in a
    ensures a[0] == b[0]
  {
    hide AtMost;
    var i :| 0 <= i < |b| && b[i] == a[0];
    var j :| 0 <= j < |a| && a[j] == b[0];
    AtMostTotal(a[0], b[0]);
    AtMostTotal(a[0], a[0]);
    assert AtMost(b[0], a[0]) && AtMost(a[0], b[0]);
  }

  lemma TailSorted(a: seq<string>)
    requires Sorted(a) && a != []
    ensures Sorted(a[1..]) && multiset(a[1..]) == multiset(a) - multiset{a[0]}
  {
    assert a == [a[0]] + a[1..];
  }

  /** A sorted listing of a multiset of strings is unique, so sorting removes map order. */
  lemma {:induction false} SortedUnique(a: seq<string>, b: seq<string>)
    requires Sorted(a) && Sorted(b) && multiset(a) == multiset(b)
    ensures a == b
  {
    hide Sorted;
    SameMultisetSameElements(a, b);
    if a != [] {
      assert a[0] in b;
      assert b[0] in a;
      SortedHeads(a, b);
      TailSorted(a);
      TailSorted(b);
      SortedUnique(a[1..], b[1..]);
      assert a == [a[0]] + a[1..] && b == [b[0]] + b[1..];
    }
  }
}
