/** What holds of the catalog over runs, where it does not, how compaction repairs it, and how full chunks are. */
module CatalogLaws {
  import opened Wrappers
  import opened Strings
  import opened Names
  import opened Catalog

  // ---- Well-formed zones ----

  ghost predicate GoodChunk(c: Chunk) {
    c != [] && Sorted(c) && Distinct(c) && AllPlain(c) && |c| <= 100 && ChunkBytes(c) <= 3500
  }

  /** The bytes that are counted are those of the text, with one more for the last name. */
  lemma {:induction false} BytesAreText(c: Chunk)
    requires c != []
    ensures ChunkBytes(c) == |JoinSpaces(c)| + 1
  {
    if |c| > 1 { BytesAreText(c[1..]); }
  }

  /** Add takes the first chunk with fewer than 100 names whose text, with the name, stays below 3500 bytes. */
  lemma FirstFitExactly(chunks: Chunks, name: string)
    ensures var t := FirstFit(chunks, name);
            && t <= |chunks|
            && (t < |chunks| ==> |chunks[t]| < 100 && |JoinSpaces(chunks[t] + [name])| < 3500)
            && forall i :: 0 <= i < t ==> |chunks[i]| >= 100 || |JoinSpaces(chunks[i] + [name])| >= 3500
  {
    hide JoinSpaces;
    hide ChunkBytes;
    forall i | 0 <= i < |chunks| ensures CanFit(chunks[i], name) <==> |chunks[i]| < 100 && |JoinSpaces(chunks[i] + [name])| < 3500 {
      BytesSnoc(chunks[i], name);
      BytesAreText(chunks[i] + [name]);
    }
  }

  ghost predicate Contiguous(zone: Zone, n: nat) {
    forall i: nat :: i in zone <==> i < n
  }

  /** Chunks 0 to n-1, none empty, sorted, within the limits, no name twice. */
  ghost predicate WellFormed(zone: Zone, n: nat) {
    && Contiguous(zone, n)
    && (forall i: nat :: i < n ==> GoodChunk(zone[i]))
    && (forall i: nat, j: nat, x :: i < j < n && x in zone[i] ==> x !in zone[j])
  }

  /** Every name any chunk holds, read or not. */
  function Held(zone: Zone): set<string> {
    set i, x | i in zone && x in zone[i] :: x
  }

  lemma InNames(cs: Chunks, i: nat, x: string)
    requires i < |cs| && x in cs[i]
    ensures x in NamesIn(cs)
  {
  }

  lemma NamedIn(cs: Chunks, x: string) returns (i: nat)
    requires x in NamesIn(cs)
    ensures i < |cs| && x in cs[i]
  {
    i :| 0 <= i < |cs| && x in cs[i];
  }

  lemma InHeld(zone: Zone, i: nat, x: string)
    requires i in zone && x in zone[i]
    ensures x in Held(zone)
  {
  }

  lemma HeldIn(zone: Zone, x: string) returns (i: nat)
    requires x in Held(zone)
    ensures i in zone && x in zone[i]
  {
    i :| i in zone && x in zone[i];
  }

  lemma ReadsBack(zone: Zone, i: nat)
    requires i in zone && AllPlain(zone[i])
    ensures ReadChunk(zone, i) == zone[i]
  {
    FieldsOfJoin(zone[i]);
  }

  lemma {:induction false} FirstMissingIs(zone: Zone, i: nat, n: nat)
    requires i <= n && n !in zone
    requires forall j: nat :: i <= j < n ==> j in zone
    ensures FirstMissing(zone, i) == n
  {
  }

  /** A well-formed zone loads as it is. */
  lemma LoadsAll(zone: Zone, n: nat)
    requires WellFormed(zone, n)
    ensures |Load(zone)| == n
    ensures forall i: nat :: i < n ==> Load(zone)[i] == zone[i]
    ensures NamesIn(Load(zone)) == Held(zone)
  {
    FirstMissingIs(zone, 0, n);
    var cs := Load(zone);
    forall i: nat | i < n ensures cs[i] == zone[i] { ReadsBack(zone, i); }
    forall x | x in Held(zone) ensures x in NamesIn(cs) {
      var i :| i in zone && x in zone[i];
      assert x in cs[i];
    }
    forall x | x in NamesIn(cs) ensures x in Held(zone) {
      var i :| 0 <= i < |cs| && x in cs[i];
      assert x in zone[i];
    }
  }

  // ---- Sorted chunks ----

  lemma DistinctByCount(a: Chunk, b: Chunk)
    requires Distinct(a) && multiset(a) == multiset(b)
    ensures Distinct(b)
  {
    forall i, j | 0 <= i < j < |b| ensures b[i] != b[j] {
      if b[i] == b[j] {
        Twice(b, i, j);
        Once(a, b[i]);
        assert false;
      }
    }
  }

  lemma Twice(s: Chunk, i: nat, j: nat)
    requires i < j < |s| && s[i] == s[j]
    ensures multiset(s)[s[i]] >= 2
  {
    assert s == s[..j] + s[j..];
    assert s[i] in s[..j] && s[j..][0] == s[i];
    assert s[i] in s[j..];
  }

  lemma {:induction false} Once(s: Chunk, x: string)
    requires Distinct(s)
    ensures multiset(s)[x] <= 1
  {
    if s != [] {
      var n := |s| - 1;
      assert s == s[..n] + [s[n]];
      Once(s[..n], x);
      if x == s[n] {
        assert x !in s[..n];
      }
    }
  }

  lemma SortKeeps(c: Chunk)
    ensures |Sort(c)| == |c|
    ensures forall x :: x in Sort(c) <==> x in c
    ensures Distinct(c) ==> Distinct(Sort(c))
    ensures AllPlain(c) ==> AllPlain(Sort(c))
    ensures ChunkBytes(Sort(c)) == ChunkBytes(c) && Sorted(Sort(c))
  {
    SortSorted(c);
    SameMultisetSameElements(c, Sort(c));
    if Distinct(c) { DistinctByCount(c, Sort(c)); }
    BytesSort(c);
    if AllPlain(c) {
      forall i | 0 <= i < |Sort(c)| ensures Plain(Sort(c)[i]) {
        assert Sort(c)[i] in c;
      }
    }
  }

  // ---- Add ----

  lemma GrownChunk(c: Chunk, name: string)
    requires c == [] || (GoodChunk(c) && CanFit(c, name))
    requires Plain(name) && |name| <= 253 && name !in c
    ensures GoodChunk(Sort(c + [name]))
    ensures forall x :: x in Sort(c + [name]) <==> x in c || x == name
  {
    BytesSnoc(c, name);
    SortKeeps(c + [name]);
    SortEmpty(c + [name]);
  }

  /** The one chunk that Add writes. */
  lemma AddShape(zone: Zone, n: nat, name: string) returns (t: nat, c: Chunk, d: Chunk)
    requires WellFormed(zone, n) && Plain(name) && |name| <= 253 && name !in Held(zone)
    ensures t == FirstFit(Load(zone), name) && t <= n
    ensures c == if t < n then zone[t] else []
    ensures AddTo(zone, name) == zone[t := d] && GoodChunk(d)
    ensures forall x :: x in d <==> x in c || x == name
  {
    LoadsAll(zone, n);
    t := FirstFit(Load(zone), name);
    c := ChunkAt(Load(zone), t);
    d := Sort(c + [name]);
    ChosenChunk(zone, n, t, c, name);
    GrownChunk(c, name);
  }

  lemma ChosenChunk(zone: Zone, n: nat, t: nat, c: Chunk, name: string)
    requires WellFormed(zone, n) && name !in Held(zone) && t <= n
    requires c == if t < n then zone[t] else []
    ensures name !in c
    ensures t < n ==> GoodChunk(c)
  {
  }

  lemma AddHeld(zone: Zone, t: nat, c: Chunk, d: Chunk, name: string)
    requires c == if t in zone then zone[t] else []
    requires forall x :: x in d <==> x in c || x == name
    ensures Held(zone[t := d]) == Held(zone) + {name}
  {
    var zone2 := zone[t := d];
    InHeld(zone2, t, name);
    forall x | x in Held(zone) ensures x in Held(zone2) {
      var i := HeldIn(zone, x);
      InHeld(zone2, i, x);
    }
    forall x | x in Held(zone2) && x != name ensures x in Held(zone) {
      var i := HeldIn(zone2, x);
      InHeld(zone, i, x);
    }
  }

  lemma AddWellFormed(zone: Zone, n: nat, t: nat, c: Chunk, d: Chunk, name: string)
    requires WellFormed(zone, n) && t <= n && name !in Held(zone) && GoodChunk(d)
    requires c == if t < n then zone[t] else []
    requires forall x :: x in d <==> x in c || x == name
    ensures WellFormed(zone[t := d], if t < n then n else n + 1)
  {
  }

  /** Add keeps the zone well formed and adds exactly the name. */
  lemma AddKeeps(zone: Zone, n: nat, name: string)
    requires WellFormed(zone, n) && Plain(name) && |name| <= 253 && name !in Held(zone)
    ensures var n2 := if FirstFit(Load(zone), name) < n then n else n + 1;
            WellFormed(AddTo(zone, name), n2) && Held(AddTo(zone, name)) == Held(zone) + {name}
  {
    var t, c, d := AddShape(zone, n, name);
    AddHeld(zone, t, c, d, name);
    AddWellFormed(zone, n, t, c, d, name);
  }

  lemma SortedStays(c: Chunk)
    requires Sorted(c)
    ensures Sort(c) == c
  {
    SortSorted(c);
    SortedUnique(c, Sort(c));
  }

  /** After a successful Add the object has the chunks a fresh load reads, but for the order within the one written, and their index. */
  lemma AddedLocally(zone: Zone, n: nat, name: string)
    requires WellFormed(zone, n) && Plain(name) && |name| <= 253 && name !in Held(zone)
    ensures var local, ds := AfterAdd(Load(zone), name, true), Load(AddTo(zone, name));
            && |local.0| == |ds| && (forall i :: 0 <= i < |ds| ==> Sort(local.0[i]) == ds[i])
            && local.1 == IndexChunks(ds)
  {
    hide Sort;
    hide FirstFit;
    hide WellFormed;
    hide IndexChunks;
    hide AddTo;
    hide Load;
    var cs, t, ds := Load(zone), FirstFit(Load(zone), name), Load(AddTo(zone, name));
    LoadsAll(zone, n);
    AddKeeps(zone, n, name);
    LoadsAll(AddTo(zone, name), if t < n then n else n + 1);
    AddedChunk(zone, name);
    var chunks := AfterAdd(cs, name, true).0;
    forall i | 0 <= i < |ds| ensures Sort(chunks[i]) == ds[i] {
      if i != t { SortedChunk(zone, n, i); }
    }
    AddedIndex(cs, ds, t, name);
  }

  lemma SortedChunk(zone: Zone, n: nat, i: nat)
    requires WellFormed(zone, n) && i < n
    ensures Sort(zone[i]) == zone[i]
  {
    SortedStays(zone[i]);
  }

  /** After a failed one it has the old names and the old index. */
  lemma RolledBackLocally(zone: Zone, name: string)
    ensures var local := AfterAdd(Load(zone), name, false);
            NamesIn(local.0) == NamesIn(Load(zone)) && local.1 == IndexChunks(Load(zone))
  {
    hide FirstFit;
    hide Load;
    var cs := Load(zone);
    var room := AfterAdd(cs, name, false).0;
    forall x ensures x in NamesIn(room) <==> x in NamesIn(cs) {
      if x in NamesIn(cs) { var i := NamedIn(cs, x); InNames(room, i, x); }
    }
  }

  lemma AddedIndex(cs: Chunks, ds: Chunks, t: nat, name: string)
    requires t <= |cs| && |ds| == (if t < |cs| then |cs| else |cs| + 1) && name !in NamesIn(cs)
    requires forall i :: 0 <= i < |ds| && i != t ==> ds[i] == cs[i]
    requires ds[t] == Sort(ChunkAt(cs, t) + [name])
    ensures IndexChunks(ds) == IndexChunks(cs)[name := t]
  {
    hide Sort;
    SortKeeps(ChunkAt(cs, t) + [name]);
    forall i, x | 0 <= i < |ds| ensures x in ds[i] <==> (i < |cs| && x in cs[i]) || (i == t && x == name) { }
    forall x ensures x in NamesIn(ds) <==> x in NamesIn(cs) || x == name {
      if x in NamesIn(cs) { var i := NamedIn(cs, x); InNames(ds, i, x); }
      if x == name { InNames(ds, t, x); }
      if x in NamesIn(ds) { var i := NamedIn(ds, x); if x != name { InNames(cs, i, x); } }
    }
    forall x | x in NamesIn(ds) ensures LastHolding(ds, x) == if x == name then t else LastHolding(cs, x) { }
  }

  // ---- Remove ----

  lemma {:induction false} ExceptKeeps(c: Chunk, name: string)
    ensures |Except(c, name)| <= |c|
    ensures Distinct(c) ==> Distinct(Except(c, name))
    ensures AllPlain(c) ==> AllPlain(Except(c, name))
    ensures ChunkBytes(Except(c, name)) <= ChunkBytes(c)
    decreases |c|
  {
    if c != [] {
      var n := |c| - 1;
      assert c == c[..n] + [c[n]];
      ExceptKeeps(c[..n], name);
      BytesSnoc(c[..n], c[n]);
      assert ChunkBytes(c) == ChunkBytes(c[..n]) + |c[n]| + 1;
      if c[n] == name {
        assert Except(c, name) == Except(c[..n], name);
      } else {
        BytesSnoc(Except(c[..n], name), c[n]);
        if Distinct(c) {
          assert c[n] !in c[..n];
          assert c[n] !in Except(c[..n], name);
        }
      }
    }
  }

  function ChunkOf(zone: Zone, name: string): nat
    requires name in NamesIn(Load(zone))
  {
    LastHolding(Load(zone), name)
  }

  /** Removing `name` would leave its chunk empty. */
  ghost predicate Empties(zone: Zone, name: string)
    requires name in NamesIn(Load(zone))
  {
    Except(Load(zone)[ChunkOf(zone, name)], name) == []
  }

  /** The one chunk that Remove rewrites or deletes. */
  lemma RemoveShape(zone: Zone, n: nat, name: string) returns (k: nat, d: Chunk)
    requires WellFormed(zone, n) && name in NamesIn(Load(zone))
    ensures k == ChunkOf(zone, name) && k < n && name in zone[k]
    ensures Empties(zone, name) <==> d == []
    ensures RemoveFrom(zone, name) == if d == [] then zone - {k} else zone[k := d]
    ensures d != [] ==> GoodChunk(d)
    ensures forall x :: x in d <==> x in zone[k] && x != name
  {
    k := ChunkHolding(zone, n, name);
    d := Sort(Except(zone[k], name));
    ShrunkChunk(zone[k], name);
    RemoveWrites(zone, name);
  }

  lemma ChunkHolding(zone: Zone, n: nat, name: string) returns (k: nat)
    requires WellFormed(zone, n) && name in NamesIn(Load(zone))
    ensures k == ChunkOf(zone, name) && k < n && name in zone[k] && GoodChunk(zone[k])
    ensures |Load(zone)| == n && Load(zone)[k] == zone[k]
  {
    LoadsAll(zone, n);
    k := ChunkOf(zone, name);
  }

  lemma RemoveWrites(zone: Zone, name: string)
    requires name in NamesIn(Load(zone))
    ensures var k := ChunkOf(zone, name);
            var d := Sort(Except(Load(zone)[k], name));
            RemoveFrom(zone, name) == if d == [] then zone - {k} else zone[k := d]
  {
  }

  lemma ShrunkChunk(c: Chunk, name: string)
    requires GoodChunk(c)
    ensures var d := Sort(Except(c, name));
            && (d != [] ==> GoodChunk(d))
            && (d == [] <==> Except(c, name) == [])
            && forall x :: x in d <==> x in c && x != name
  {
    ExceptKeeps(c, name);
    SortKeeps(Except(c, name));
    SortEmpty(Except(c, name));
  }

  lemma RemoveHeld(zone: Zone, zone2: Zone, k: nat, d: Chunk, name: string)
    requires k in zone && name in zone[k]
    requires forall i :: i in zone && name in zone[i] ==> i == k
    requires forall x :: x in d <==> x in zone[k] && x != name
    requires zone2 == if d == [] then zone - {k} else zone[k := d]
    ensures Held(zone2) == Held(zone) - {name}
  {
    forall x | x in Held(zone) && x != name ensures x in Held(zone2) {
      var i := HeldIn(zone, x);
      assert i == k ==> x in d && d != [];
      InHeld(zone2, i, x);
    }
    forall x | x in Held(zone2) ensures x in Held(zone) && x != name {
      var i := HeldIn(zone2, x);
      assert i == k ==> zone2[i] == d;
      InHeld(zone, i, x);
    }
  }

  lemma RemoveWellFormed(zone: Zone, n: nat, zone2: Zone, k: nat, d: Chunk, name: string)
    requires WellFormed(zone, n) && k < n && name in zone[k]
    requires forall x :: x in d <==> x in zone[k] && x != name
    requires d != [] ==> GoodChunk(d)
    requires zone2 == if d == [] then zone - {k} else zone[k := d]
    requires d == [] ==> k == n - 1
    ensures WellFormed(zone2, if d == [] then n - 1 else n)
  {
  }

  /** A removal that leaves its chunk non-empty, or empties the last chunk, keeps the zone well formed. */
  lemma RemoveKeeps(zone: Zone, n: nat, name: string)
    requires WellFormed(zone, n) && name in NamesIn(Load(zone))
    requires !Empties(zone, name) || ChunkOf(zone, name) == n - 1
    ensures var n2 := if Empties(zone, name) then n - 1 else n;
            n2 >= 0 && WellFormed(RemoveFrom(zone, name), n2)
    ensures Held(RemoveFrom(zone, name)) == Held(zone) - {name}
  {
    var k, d := RemoveShape(zone, n, name);
    OneHolder(zone, n, name, k);
    RemoveHeld(zone, RemoveFrom(zone, name), k, d, name);
    RemoveWellFormed(zone, n, RemoveFrom(zone, name), k, d, name);
  }

  lemma OneHolder(zone: Zone, n: nat, name: string, k: nat)
    requires WellFormed(zone, n) && k < n && name in zone[k]
    ensures forall i: nat :: i < n && name in zone[i] ==> i == k
  {
  }

  /** Emptying chunk k in the middle: a fresh load reads exactly chunks 0 to k-1. */
  lemma GapHides(zone: Zone, n: nat, name: string)
    requires WellFormed(zone, n) && name in NamesIn(Load(zone)) && Empties(zone, name)
    ensures Load(RemoveFrom(zone, name)) == Load(zone)[..ChunkOf(zone, name)]
  {
  }

  lemma NotAmongFirst(zone: Zone, n: nat, cs: Chunks, k: nat, x: string)
    requires WellFormed(zone, n) && k < n && x in zone[n - 1]
    requires |cs| == n && forall i: nat :: i < n ==> cs[i] == zone[i]
    ensures x !in NamesIn(cs[..k])
  {
  }

  /** The names of the last chunk are lost to a fresh load when a chunk in front of it is emptied. */
  lemma GapLoses(zone: Zone, n: nat, name: string) returns (x: string)
    requires WellFormed(zone, n) && name in NamesIn(Load(zone))
    requires Empties(zone, name) && ChunkOf(zone, name) != n - 1
    ensures x in NamesIn(Load(zone)) && x != name && x !in NamesIn(Load(RemoveFrom(zone, name)))
  {
    var k := ChunkHolding(zone, n, name);
    x := LastName(zone, n, name, k);
    GapHides(zone, n, name);
  }

  lemma LastName(zone: Zone, n: nat, name: string, k: nat) returns (x: string)
    requires WellFormed(zone, n) && k < n - 1 && name in zone[k]
    ensures |Load(zone)| == n
    ensures x in NamesIn(Load(zone)) && x != name && x !in NamesIn(Load(zone)[..k])
  {
    x := zone[n - 1][0];
    assert x in zone[n - 1];
    OneHolder(zone, n, name, k);
    InHeld(zone, n - 1, x);
    LoadsAll(zone, n);
    NotAmongFirst(zone, n, Load(zone), k, x);
  }

  /**
   * A removal takes exactly the name away from what a fresh load reads, if and only if it does not
   * empty a chunk in front of another.
   */
  lemma RemoveExactlyWhen(zone: Zone, n: nat, name: string)
    requires WellFormed(zone, n) && name in NamesIn(Load(zone))
    ensures NamesIn(Load(RemoveFrom(zone, name))) == NamesIn(Load(zone)) - {name}
       <==> !Empties(zone, name) || ChunkOf(zone, name) == n - 1
  {
    if !Empties(zone, name) || ChunkOf(zone, name) == n - 1 {
      LoadsAll(zone, n);
      RemoveKeeps(zone, n, name);
      LoadsAll(RemoveFrom(zone, name), if Empties(zone, name) then n - 1 else n);
    } else {
      var x := GapLoses(zone, n, name);
    }
  }

  // ---- Runs ----

  /** An operation and whether its write was applied. */
  datatype Op = AddOp(name: string, applied: bool) | RemoveOp(name: string, applied: bool)

  function Apply(zone: Zone, op: Op): Zone {
    match op
    case AddOp(name, applied) =>
      if |name| > 253 || name in NamesIn(Load(zone)) || !applied then zone else AddTo(zone, name)
    case RemoveOp(name, applied) =>
      if name !in NamesIn(Load(zone)) || !applied then zone else RemoveFrom(zone, name)
  }

  function ApplyAll(ops: seq<Op>): Zone {
    if ops == [] then map[] else Apply(ApplyAll(ops[..|ops| - 1]), ops[|ops| - 1])
  }

  /** The set of names the same run should leave. */
  function Expected(ops: seq<Op>): set<string> {
    if ops == [] then {}
    else
      var s := Expected(ops[..|ops| - 1]);
      match ops[|ops| - 1]
      case AddOp(name, applied) => if |name| <= 253 && applied then s + {name} else s
      case RemoveOp(name, applied) => if applied then s - {name} else s
  }

  /** Names without white space, and no removal that empties a chunk in front of another. */
  ghost predicate Orderly(ops: seq<Op>) {
    forall i :: 0 <= i < |ops| ==>
      && Plain(ops[i].name)
      && (ops[i].RemoveOp? && ops[i].applied && ops[i].name in NamesIn(Load(ApplyAll(ops[..i]))) ==>
            var zone := ApplyAll(ops[..i]);
            !Empties(zone, ops[i].name) || ChunkOf(zone, ops[i].name) == |Load(zone)| - 1)
  }

  lemma OrderlyFront(ops: seq<Op>)
    requires Orderly(ops) && ops != []
    ensures Orderly(ops[..|ops| - 1])
  {
    var front := ops[..|ops| - 1];
    forall i | 0 <= i < |front| ensures ops[..i] == front[..i] && front[i] == ops[i] { }
  }

  /**
   * Refinement.  From an empty zone, over every orderly run with failed writes, the chunks stay
   * contiguous, non-empty, disjoint and within the limits, and a fresh load gives exactly the names
   * added and not removed.
   */
  lemma {:induction false} CatalogRefines(ops: seq<Op>) returns (n: nat)
    requires Orderly(ops)
    ensures WellFormed(ApplyAll(ops), n)
    ensures NamesIn(Load(ApplyAll(ops))) == Expected(ops)
    decreases |ops|
  {
    if ops == [] {
      n := 0;
      LoadsAll(map[], 0);
    } else {
      var k := |ops| - 1;
      OrderlyFront(ops);
      var m := CatalogRefines(ops[..k]);
      var zone, op := ApplyAll(ops[..k]), ops[k];
      LoadsAll(zone, m);
      n := m;
      if op.AddOp? {
        if |op.name| <= 253 && op.applied && op.name !in NamesIn(Load(zone)) {
          AddKeeps(zone, m, op.name);
          n := if FirstFit(Load(zone), op.name) < m then m else m + 1;
        }
      } else if op.applied && op.name in NamesIn(Load(zone)) {
        RemoveKeeps(zone, m, op.name);
        n := if Empties(zone, op.name) then m - 1 else m;
      }
      LoadsAll(ApplyAll(ops), n);
    }
  }

  // ---- Leftover chunks ----

  /**
   * Chunks behind a gap are not harmless: whatever fills the gap makes them readable again, so a fresh
   * load gives the old names, the new chunk, and every name of the chunks up to the next gap.
   */
  lemma GapFilledReveals(zone: Zone, chunk: Chunk, x: string)
    requires chunk != [] && AllPlain(chunk)
    ensures var t := FirstMissing(zone, 0);
            x in NamesIn(Load(WriteChunk(zone, t, chunk))) <==>
              || x in NamesIn(Load(zone))
              || x in chunk
              || exists j: nat :: t < j < FirstMissing(zone, t + 1) && x in ReadChunk(zone, j)
  {
    var t, e := FilledLoad(zone, chunk);
    var cs := Load(WriteChunk(zone, t, chunk));
    SortKeeps(chunk);
    NamesAround(cs, Load(zone), t, x);
    forall j: nat | t < j < e && x in ReadChunk(zone, j) ensures x in NamesIn(cs) { InNames(cs, j, x); }
  }

  lemma NamesAround(cs: Chunks, before: Chunks, t: nat, x: string)
    requires |before| == t < |cs| && forall j: nat :: j < t ==> cs[j] == before[j]
    ensures x in NamesIn(cs) <==>
              x in NamesIn(before) || x in cs[t] || exists j: nat :: t < j < |cs| && x in cs[j]
  {
  }

  lemma FilledLoad(zone: Zone, chunk: Chunk) returns (t: nat, e: nat)
    requires chunk != [] && AllPlain(chunk)
    ensures t == FirstMissing(zone, 0) && e == FirstMissing(zone, t + 1)
    ensures var cs := Load(WriteChunk(zone, t, chunk));
            && |cs| == e && t < e && cs[t] == Sort(chunk)
            && (forall j: nat :: j < t ==> cs[j] == Load(zone)[j])
            && (forall j: nat :: t < j < e ==> cs[j] == ReadChunk(zone, j))
  {
    t := FirstMissing(zone, 0);
    e := FirstMissing(zone, t + 1);
    SortKeeps(chunk);
    SortEmpty(chunk);
    FilledReads(zone, t, e, Sort(chunk));
  }

  lemma FilledReads(zone: Zone, t: nat, e: nat, d: Chunk)
    requires t == FirstMissing(zone, 0) && e == FirstMissing(zone, t + 1) && AllPlain(d)
    ensures var cs := Load(zone[t := d]);
            && |cs| == e && t < e && cs[t] == d
            && (forall j: nat :: j < t ==> cs[j] == Load(zone)[j])
            && (forall j: nat :: t < j < e ==> cs[j] == ReadChunk(zone, j))
  {
    var zone2 := zone[t := d];
    FirstMissingIs(zone2, 0, e);
    ReadsBack(zone2, t);
    var cs := Load(zone2);
    forall j: nat | j < e && j != t ensures cs[j] == ReadChunk(zone, j) {
      assert zone2[j] == zone[j];
    }
  }

  // ---- How full chunks are ----

  predicate Full(c: Chunk) {
    |c| >= 100 || ChunkBytes(c) >= 3247
  }

  ghost predicate FullButLast(cs: Chunks) {
    forall i :: 0 <= i < |cs| - 1 ==> Full(cs[i])
  }

  lemma NoRoomIsFull(c: Chunk, name: string)
    requires |name| <= 253 && !CanFit(c, name)
    ensures Full(c)
  {
  }

  lemma AddFills(zone: Zone, n: nat, name: string)
    requires WellFormed(zone, n) && FullButLast(Load(zone))
    requires Plain(name) && |name| <= 253 && name !in Held(zone)
    ensures FullButLast(Load(AddTo(zone, name)))
  {
    hide Sort;
    hide WellFormed;
    var cs := Load(zone);
    var t := FirstFit(cs, name);
    LoadsAll(zone, n);
    AddKeeps(zone, n, name);
    var n2 := if t < n then n else n + 1;
    LoadsAll(AddTo(zone, name), n2);
    AddedChunk(zone, name);
    StillFull(cs, Load(AddTo(zone, name)), t, name);
  }

  lemma AddedChunk(zone: Zone, name: string)
    ensures var t, cs := FirstFit(Load(zone), name), Load(zone);
            AddTo(zone, name) == zone[t := Sort(ChunkAt(cs, t) + [name])]
  {
  }

  lemma StillFull(cs: Chunks, ds: Chunks, t: nat, name: string)
    requires t == FirstFit(cs, name) && |name| <= 253 && FullButLast(cs)
    requires |ds| == (if t < |cs| then |cs| else |cs| + 1) && ds[t] == Sort(ChunkAt(cs, t) + [name])
    requires forall i :: 0 <= i < |ds| && i != t ==> ds[i] == cs[i]
    ensures FullButLast(ds)
  {
    SortKeeps(ChunkAt(cs, t) + [name]);
    BytesSnoc(ChunkAt(cs, t), name);
    forall i | 0 <= i < |ds| - 1 ensures Full(ds[i]) {
      if i == t {
        assert Full(cs[i]);
      } else if t == |cs| {
        NoRoomIsFull(cs[i], name);
      }
    }
  }

  ghost predicate AddsOnly(ops: seq<Op>) {
    forall i :: 0 <= i < |ops| ==> ops[i].AddOp? && Plain(ops[i].name)
  }

  lemma {:induction false} AddsFill(ops: seq<Op>)
    requires AddsOnly(ops)
    ensures FullButLast(Load(ApplyAll(ops)))
    decreases |ops|
  {
    if ops == [] {
      LoadsAll(map[], 0);
    } else {
      var k := |ops| - 1;
      AddsFill(ops[..k]);
      var n := CatalogRefines(ops[..k]);
      var zone, op := ApplyAll(ops[..k]), ops[k];
      LoadsAll(zone, n);
      if |op.name| <= 253 && op.applied && op.name !in NamesIn(Load(zone)) {
        AddFills(zone, n, op.name);
      }
    }
  }

  ghost predicate Short(names: seq<string>) {
    forall i :: 0 <= i < |names| ==> |names[i]| <= 253
  }

  lemma {:induction false} PackFills(names: seq<string>)
    requires Short(names)
    ensures FullButLast(Pack(names))
    ensures forall i :: 0 <= i < |Pack(names)| ==>
              Pack(names)[i] != [] && |Pack(names)[i]| <= 100 && ChunkBytes(Pack(names)[i]) <= 3500
    ensures forall x :: x in NamesIn(Pack(names)) <==> x in names
    decreases |names|
  {
    if names != [] {
      var k := |names| - 1;
      var x := names[k];
      PackFills(names[..k]);
      var cs := Pack(names[..k]);
      assert names == names[..k] + [x];
      if cs == [] || !CanFit(cs[|cs| - 1], x) {
        if cs != [] { NoRoomIsFull(cs[|cs| - 1], x); }
        assert ChunkBytes([x]) == |x| + 1;
        AddedChunkNames(cs, x);
      } else {
        BytesSnoc(cs[|cs| - 1], x);
        GrownChunkNames(cs, x);
      }
    }
  }

  lemma AddedChunkNames(cs: Chunks, x: string)
    ensures NamesIn(cs + [[x]]) == NamesIn(cs) + {x}
  {
    var ds := cs + [[x]];
    assert x in ds[|cs|];
    forall y | y in NamesIn(cs) ensures y in NamesIn(ds) {
      var i :| 0 <= i < |cs| && y in cs[i];
      assert y in ds[i];
    }
  }

  lemma GrownChunkNames(cs: Chunks, x: string)
    requires cs != []
    ensures NamesIn(cs[..|cs| - 1] + [cs[|cs| - 1] + [x]]) == NamesIn(cs) + {x}
  {
    var k := |cs| - 1;
    var ds := cs[..k] + [cs[k] + [x]];
    assert x in ds[k];
    forall y | y in NamesIn(cs) ensures y in NamesIn(ds) {
      var i :| 0 <= i < |cs| && y in cs[i];
      assert y in ds[i];
    }
    forall y | y in NamesIn(ds) ensures y in NamesIn(cs) + {x} {
      var i :| 0 <= i < |ds| && y in ds[i];
      assert y == x || y in cs[i];
    }
  }

  function CountAll(cs: Chunks): nat {
    if cs == [] then 0 else CountAll(cs[..|cs| - 1]) + |cs[|cs| - 1]|
  }

  function BytesAll(cs: Chunks): nat {
    if cs == [] then 0 else BytesAll(cs[..|cs| - 1]) + ChunkBytes(cs[|cs| - 1])
  }

  lemma {:induction false} FullShare(cs: Chunks) returns (a: nat, b: nat)
    requires forall i :: 0 <= i < |cs| ==> Full(cs[i])
    ensures a + b == |cs| && 100 * a <= CountAll(cs) && 3247 * b <= BytesAll(cs)
    decreases |cs|
  {
    a, b := 0, 0;
    if cs != [] {
      var n := |cs| - 1;
      a, b := FullShare(cs[..n]);
      if |cs[n]| >= 100 { a := a + 1; } else { b := b + 1; }
    }
  }

  function MaxChunks(count: nat, bytes: nat): nat {
    1 + count / 100 + bytes / 3247
  }

  lemma ShareBound(a: nat, b: nat, count: nat, bytes: nat)
    requires 100 * a <= count && 3247 * b <= bytes
    ensures 1 + a + b <= MaxChunks(count, bytes)
  {
  }

  lemma FrontBound(front: Chunks, count: nat, bytes: nat)
    requires forall i :: 0 <= i < |front| ==> Full(front[i])
    requires CountAll(front) <= count && BytesAll(front) <= bytes
    ensures 1 + |front| <= MaxChunks(count, bytes)
  {
    var a, b := FullShare(front);
    ShareBound(a, b, count, bytes);
  }

  /** With N names and B bytes there are at most 1 + N/100 + B/3247 chunks. */
  lemma ChunkCountBound(cs: Chunks)
    requires FullButLast(cs)
    ensures |cs| <= MaxChunks(CountAll(cs), BytesAll(cs))
  {
    if cs != [] {
      var front := cs[..|cs| - 1];
      assert forall i :: 0 <= i < |front| ==> front[i] == cs[i];
      FrontCounts(cs);
      FrontBound(front, CountAll(cs), BytesAll(cs));
    }
  }

  lemma FrontCounts(cs: Chunks)
    requires cs != []
    ensures CountAll(cs[..|cs| - 1]) <= CountAll(cs) && BytesAll(cs[..|cs| - 1]) <= BytesAll(cs)
  {
  }

  function Concat(cs: Chunks): seq<string> {
    if cs == [] then [] else Concat(cs[..|cs| - 1]) + cs[|cs| - 1]
  }

  lemma {:induction false} BytesAppend(a: seq<string>, b: seq<string>)
    ensures ChunkBytes(a + b) == ChunkBytes(a) + ChunkBytes(b)
    decreases |b|
  {
    if b == [] {
      assert a + b == a;
    } else {
      var n := |b| - 1;
      assert a + b == a + b[..n] + [b[n]] && b == b[..n] + [b[n]];
      BytesAppend(a, b[..n]);
      BytesSnoc(a + b[..n], b[n]);
      BytesSnoc(b[..n], b[n]);
    }
  }

  lemma {:induction false} ConcatCounts(cs: Chunks)
    ensures CountAll(cs) == |Concat(cs)| && BytesAll(cs) == ChunkBytes(Concat(cs))
    decreases |cs|
  {
    if cs != [] {
      var n := |cs| - 1;
      ConcatCounts(cs[..n]);
      BytesAppend(Concat(cs[..n]), cs[n]);
    }
  }

  /** No name is in two chunks, or twice in one. */
  ghost predicate Separate(cs: Chunks) {
    && (forall i :: 0 <= i < |cs| ==> Distinct(cs[i]))
    && (forall i, j, x :: 0 <= i < j < |cs| && x in cs[i] ==> x !in cs[j])
  }

  lemma {:induction false} ConcatLists(cs: Chunks)
    requires Separate(cs)
    ensures multiset(Concat(cs)) == multiset(NamesIn(cs))
    decreases |cs|
  {
    if cs != [] {
      var n := |cs| - 1;
      var front, last := cs[..n], cs[n];
      ConcatLists(front);
      forall x ensures multiset(Concat(cs))[x] == multiset(NamesIn(cs))[x] {
        Once(last, x);
        assert x in last <==> x in multiset(last);
        LastNames(cs, x);
        if x in NamesIn(front) { var i := NamedIn(front, x); }
      }
    }
  }

  lemma LastNames(cs: Chunks, x: string)
    requires cs != []
    ensures x in NamesIn(cs) <==> x in NamesIn(cs[..|cs| - 1]) || x in cs[|cs| - 1]
  {
    var n := |cs| - 1;
    if x in NamesIn(cs) {
      var i := NamedIn(cs, x);
      if i < n { InNames(cs[..n], i, x); }
    }
    if x in NamesIn(cs[..n]) {
      var i := NamedIn(cs[..n], x);
      InNames(cs, i, x);
    }
    if x in cs[n] { InNames(cs, n, x); }
  }

  /** The order of a listing does not matter to its bytes. */
  lemma BytesOfListing(a: seq<string>, b: seq<string>)
    requires multiset(a) == multiset(b)
    ensures |a| == |b| && ChunkBytes(a) == ChunkBytes(b)
  {
    SortSorted(a);
    SortSorted(b);
    SortedUnique(Sort(a), Sort(b));
    BytesSort(a);
    BytesSort(b);
    SameMultisetSameElements(a, b);
  }

  lemma LoadsSeparate(zone: Zone, n: nat)
    requires WellFormed(zone, n)
    ensures Separate(Load(zone))
  {
    hide Distinct;
    hide AllPlain;
    hide ReadChunk;
    LoadsAll(zone, n);
    var cs := Load(zone);
    forall i: nat | i < n ensures Distinct(cs[i]) { assert GoodChunk(zone[i]); }
    forall i: nat, j: nat, x | i < j < n && x in cs[i] ensures x !in cs[j] { assert x in zone[i]; }
  }

  /** A well-formed zone holds as many names and bytes as any listing of its names. */
  lemma ZoneCounts(zone: Zone, n: nat, names: seq<string>)
    requires WellFormed(zone, n) && multiset(names) == multiset(NamesIn(Load(zone)))
    ensures CountAll(Load(zone)) == |names| && BytesAll(Load(zone)) == ChunkBytes(names)
  {
    hide WellFormed;
    hide Concat;
    hide ChunkBytes;
    var cs := Load(zone);
    LoadsSeparate(zone, n);
    ConcatLists(cs);
    ConcatCounts(cs);
    BytesOfListing(names, Concat(cs));
  }

  /** Every run of additions from an empty zone, of N names of B bytes in all, stays within the bound. */
  lemma AddRunsStaySmall(ops: seq<Op>, names: seq<string>)
    requires AddsOnly(ops) && multiset(names) == multiset(Expected(ops))
    ensures |Load(ApplyAll(ops))| <= MaxChunks(|names|, ChunkBytes(names))
  {
    AddsFill(ops);
    var n := CatalogRefines(ops);
    ZoneCounts(ApplyAll(ops), n, names);
    ChunkCountBound(Load(ApplyAll(ops)));
  }

  /** Packing keeps the order: the chunks, one after the other, are the list. */
  lemma {:induction false} PackKeepsOrder(names: seq<string>)
    ensures Concat(Pack(names)) == names
    decreases |names|
  {
    hide CanFit;
    if names != [] {
      var n := |names| - 1;
      var x, cs := names[n], Pack(names[..n]);
      PackKeepsOrder(names[..n]);
      assert names == names[..n] + [x];
      if cs == [] || !CanFit(cs[|cs| - 1], x) {
        ConcatSnoc(cs, [x]);
      } else {
        var k := |cs| - 1;
        ConcatSnoc(cs[..k], cs[k]);
        ConcatSnoc(cs[..k], cs[k] + [x]);
        assert cs[..k] + [cs[k]] == cs;
        assert Concat(cs[..k]) + (cs[k] + [x]) == Concat(cs[..k]) + cs[k] + [x];
      }
    }
  }

  lemma ConcatSnoc(cs: Chunks, c: Chunk)
    ensures Concat(cs + [c]) == Concat(cs) + c
  {
    assert (cs + [c])[..|cs|] == cs;
  }

  /** Packing loses and repeats nothing: the chunks hold as many names and bytes as the list. */
  lemma PackConserves(names: seq<string>)
    ensures CountAll(Pack(names)) == |names| && BytesAll(Pack(names)) == ChunkBytes(names)
  {
    PackKeepsOrder(names);
    ConcatCounts(Pack(names));
  }

  /** What Compact writes for N names of B bytes in all is at most 1 + N/100 + B/3247 chunks. */
  lemma CompactStaysSmall(names: seq<string>)
    requires Short(names)
    ensures |Pack(names)| <= MaxChunks(|names|, ChunkBytes(names))
  {
    PackFills(names);
    PackConserves(names);
    ChunkCountBound(Pack(names));
  }

  // ---- Compaction ----

  lemma {:induction false} WriteAllKeeps(zone: Zone, cs: Chunks, i: nat, j: nat)
    requires i <= |cs| && NoneEmpty(cs) && j >= i
    ensures At(WriteAll(zone, cs, i), j) == At(zone, j)
    decreases i
  {
    hide Sort;
    if i > 0 {
      WriteAllStep(zone, cs, i, j);
      WriteAllKeeps(zone, cs, i - 1, j);
    }
  }

  lemma {:induction false} WriteAllWrites(zone: Zone, cs: Chunks, i: nat, j: nat)
    requires i <= |cs| && NoneEmpty(cs) && j < i
    ensures At(WriteAll(zone, cs, i), j) == Some(Sort(cs[j]))
    decreases i
  {
    hide Sort;
    if j < i - 1 {
      WriteAllWrites(zone, cs, i - 1, j);
      WriteAllStep(zone, cs, i, j);
    } else {
      WriteAllStep(zone, cs, i, j);
    }
  }

  lemma WriteAllStep(zone: Zone, cs: Chunks, i: nat, j: nat)
    requires 0 < i <= |cs| && NoneEmpty(cs)
    ensures At(WriteAll(zone, cs, i), j) == if j == i - 1 then Some(Sort(cs[j])) else At(WriteAll(zone, cs, i - 1), j)
  {
  }

  ghost predicate NoneEmpty(cs: Chunks) {
    forall k :: 0 <= k < |cs| ==> cs[k] != []
  }

  function At(zone: Zone, j: nat): Option<Chunk> {
    if j in zone then Some(zone[j]) else None
  }

  /** What the zone holds after a compaction in which every write was applied. */
  lemma CompactLookup(zone: Zone, names: seq<string>, oldCount: nat, j: nat)
    requires names != [] && Short(names)
    ensures var cs := Pack(names);
            At(CompactTo(zone, names, oldCount), j) ==
              if j < |cs| then Some(Sort(cs[j])) else if j < oldCount then None else At(zone, j)
  {
    PackFills(names);
    var cs := Pack(names);
    if j < |cs| {
      WriteAllWrites(zone, cs, |cs|, j);
    } else {
      WriteAllKeeps(zone, cs, |cs|, j);
    }
  }

  lemma PackPlain(names: seq<string>)
    requires AllPlain(names) && Short(names)
    ensures forall i :: 0 <= i < |Pack(names)| ==> AllPlain(Pack(names)[i])
  {
  }

  /** The local chunk count after a removal: an emptied chunk 0 is still counted. */
  function LocalCount(n: nat, k: nat): nat {
    if k > 0 && n > 0 then n - 1 else n
  }

  lemma OnlyName(c: Chunk, name: string)
    requires Except(c, name) == []
    ensures forall x :: x in c ==> x == name
  {
  }

  lemma DropNames(cs: Chunks, k: nat, name: string)
    requires k < |cs| && Except(cs[k], name) == [] && name in cs[k]
    requires forall i :: 0 <= i < |cs| && name in cs[i] ==> i == k
    ensures NamesIn(DropAt(cs, k)) == NamesIn(cs) - {name}
  {
    var ds := DropAt(cs, k);
    OnlyName(cs[k], name);
    forall x | x in NamesIn(cs) - {name} ensures x in NamesIn(ds) {
      var i := NamedIn(cs, x);
      InNames(ds, if i < k then i else i - 1, x);
    }
    forall x | x in NamesIn(ds) ensures x in NamesIn(cs) - {name} {
      var i := NamedIn(ds, x);
      InNames(cs, if i < k then i else i + 1, x);
    }
  }

  lemma LocalCountIs(zone: Zone, n: nat, name: string)
    requires WellFormed(zone, n) && name in NamesIn(Load(zone)) && Empties(zone, name)
    ensures |AfterRemove(Load(zone), name).0| == LocalCount(n, ChunkOf(zone, name))
    ensures AfterRemove(Load(zone), name).1.Keys == NamesIn(Load(zone)) - {name}
  {
    LoadsAll(zone, n);
    var k := ChunkOf(zone, name);
    OneHolder(zone, n, name, k);
    DropNames(Load(zone), k, name);
  }

  /**
   * Compact repairs a gap.  After a removal that emptied a chunk, Compact on the same object, with
   * every write applied, makes a fresh load give the whole remaining set again.
   */
  lemma CompactRepairs(zone: Zone, n: nat, name: string, names: seq<string>)
    requires WellFormed(zone, n) && name in NamesIn(Load(zone)) && Empties(zone, name)
    requires forall i: nat, j :: i < n && 0 <= j < |zone[i]| ==> |zone[i][j]| <= 253
    requires multiset(names) == multiset(NamesIn(Load(zone)) - {name})
    ensures var k := ChunkOf(zone, name);
            NamesIn(Load(CompactTo(RemoveFrom(zone, name), names, LocalCount(n, k)))) == NamesIn(Load(zone)) - {name}
  {
    hide Sort;
    hide CompactTo;
    hide WellFormed;
    hide Short;
    hide Except;
    hide LastHolding;
    var k := ChunkHolding(zone, n, name);
    var zone1 := RemoveFrom(zone, name);
    RemainingNames(zone, n, name, names);
    assert zone1 == zone - {k};
    LoadsAll(zone, n);
    if names == [] {
      CompactNothing(zone1, LocalCount(n, k));
    } else {
      PackFills(names);
      CompactedZone(zone, n, name, k, names);
      CompactedNames(zone, n, name, k, CompactTo(zone1, names, LocalCount(n, k)), Pack(names));
    }
  }

  /** With no name left, chunk 0 is deleted and not inserted again. */
  lemma CompactNothing(zone: Zone, oldCount: nat)
    ensures Load(CompactTo(zone, [], oldCount)) == []
  {
  }

  lemma CompactedZone(zone: Zone, n: nat, name: string, k: nat, names: seq<string>)
    requires WellFormed(zone, n) && k < n && names != [] && Short(names) && AllPlain(names)
    ensures var zone2, cs := CompactTo(zone - {k}, names, LocalCount(n, k)), Pack(names);
            && (forall j: nat :: j in zone2 <==> j < |cs| || (k > 0 && k != n - 1 && j == n - 1 && j >= |cs|))
            && (forall j: nat :: j in zone2 ==> AllPlain(zone2[j]))
            && (forall j: nat :: j in zone2 && j >= |cs| ==> zone2[j] == zone[j] && j < n && j != k)
            && (forall j: nat :: j in zone2 && j < |cs| ==> zone2[j] == Sort(cs[j]))
  {
    var zone2, cs := CompactTo(zone - {k}, names, LocalCount(n, k)), Pack(names);
    forall j: nat ensures At(zone2, j) == CompactedAt(zone, n, k, cs, j) {
      CompactLookup(zone - {k}, names, LocalCount(n, k), j);
    }
    PackPlain(names);
    CompactedParts(zone, n, k, zone2, cs);
  }

  function CompactedAt(zone: Zone, n: nat, k: nat, cs: Chunks, j: nat): Option<Chunk> {
    if j < |cs| then Some(Sort(cs[j]))
    else if j < LocalCount(n, k) || j == k then None
    else At(zone, j)
  }

  lemma CompactedParts(zone: Zone, n: nat, k: nat, zone2: Zone, cs: Chunks)
    requires WellFormed(zone, n) && k < n && forall i :: 0 <= i < |cs| ==> AllPlain(cs[i])
    requires forall j: nat :: At(zone2, j) == CompactedAt(zone, n, k, cs, j)
    ensures forall j: nat :: j in zone2 <==> j < |cs| || (k > 0 && k != n - 1 && j == n - 1 && j >= |cs|)
    ensures forall j: nat :: j in zone2 ==> AllPlain(zone2[j])
    ensures forall j: nat :: j in zone2 && j >= |cs| ==> zone2[j] == zone[j] && j < n && j != k
    ensures forall j: nat :: j in zone2 && j < |cs| ==> zone2[j] == Sort(cs[j])
  {
    forall j: nat ensures j in zone2 <==> j < |cs| || (k > 0 && k != n - 1 && j == n - 1 && j >= |cs|) {
      assert At(zone2, j).Some? <==> j in zone2;
    }
    forall j: nat | j in zone2
      ensures AllPlain(zone2[j])
      ensures j >= |cs| ==> zone2[j] == zone[j] && j < n && j != k
      ensures j < |cs| ==> zone2[j] == Sort(cs[j])
    {
      assert At(zone2, j) == Some(zone2[j]);
      if j < |cs| { SortKeeps(cs[j]); }
    }
  }

  lemma RemainingNames(zone: Zone, n: nat, name: string, names: seq<string>)
    requires WellFormed(zone, n) && name in NamesIn(Load(zone))
    requires forall i: nat, j :: i < n && 0 <= j < |zone[i]| ==> |zone[i][j]| <= 253
    requires multiset(names) == multiset(NamesIn(Load(zone)) - {name})
    ensures forall x :: x in names <==> x in NamesIn(Load(zone)) - {name}
    ensures Short(names) && AllPlain(names)
  {
    LoadsAll(zone, n);
    SetListed(names, NamesIn(Load(zone)) - {name});
    forall j | 0 <= j < |names| ensures |names[j]| <= 253 && Plain(names[j]) {
      assert names[j] in names;
      var i := HeldIn(zone, names[j]);
      var l :| 0 <= l < |zone[i]| && zone[i][l] == names[j];
    }
  }

  lemma SetListed(names: seq<string>, s: set<string>)
    requires multiset(names) == multiset(s)
    ensures forall x :: x in names <==> x in s
  {
    forall x ensures x in names <==> x in s {
      assert x in names <==> x in multiset(names);
    }
  }

  lemma CompactedNames(zone: Zone, n: nat, name: string, k: nat, zone2: Zone, cs: Chunks)
    requires WellFormed(zone, n) && k < n && name in zone[k] && Held(zone) == NamesIn(Load(zone))
    requires Except(zone[k], name) == []
    requires NamesIn(cs) == Held(zone) - {name}
    requires forall j: nat :: j in zone2 <==> j < |cs| || (k > 0 && k != n - 1 && j == n - 1 && j >= |cs|)
    requires forall j: nat :: j in zone2 ==> AllPlain(zone2[j])
    requires forall j: nat :: j in zone2 && j >= |cs| ==> zone2[j] == zone[j] && j < n && j != k
    requires forall j: nat :: j in zone2 && j < |cs| ==> zone2[j] == Sort(cs[j])
    ensures NamesIn(Load(zone2)) == Held(zone) - {name}
  {
    var ds := Load(zone2);
    forall i | 0 <= i < |ds| ensures ds[i] == zone2[i] { ReadsBack(zone2, i); }
    assert |ds| >= |cs|;
    forall x | x in NamesIn(cs) ensures x in NamesIn(ds) {
      var i := NamedIn(cs, x);
      SortKeeps(cs[i]);
      InNames(ds, i, x);
    }
    OneHolder(zone, n, name, k);
    forall x | x in NamesIn(ds) ensures x in Held(zone) - {name} {
      var i := NamedIn(ds, x);
      if i < |cs| {
        SortKeeps(cs[i]);
        InNames(cs, i, x);
      } else {
        InHeld(zone, i, x);
      }
    }
  }

  /** The last chunk of the zone survives the compaction when the gap was neither first nor last. */
  lemma CompactLeavesLast(zone: Zone, n: nat, name: string, names: seq<string>)
    requires WellFormed(zone, n) && name in NamesIn(Load(zone)) && Empties(zone, name)
    requires names != [] && Short(names)
    ensures var k := ChunkOf(zone, name);
            var zone2 := CompactTo(RemoveFrom(zone, name), names, LocalCount(n, k));
            (exists j: nat :: j >= |Pack(names)| && j in zone2) <==> 0 < k < n - 1 && |Pack(names)| < n
  {
    LoadsAll(zone, n);
    var k := ChunkOf(zone, name);
    var zone1 := RemoveFrom(zone, name);
    assert zone1 == zone - {k};
    LeftAfterCompact(zone, zone1, n, k, names);
  }

  lemma LeftAfterCompact(zone: Zone, zone1: Zone, n: nat, k: nat, names: seq<string>)
    requires Contiguous(zone, n) && k < n && zone1 == zone - {k} && names != [] && Short(names)
    ensures var zone2 := CompactTo(zone1, names, LocalCount(n, k));
            (exists j: nat :: j >= |Pack(names)| && j in zone2) <==> 0 < k < n - 1 && |Pack(names)| < n
  {
    var zone2 := CompactTo(zone1, names, LocalCount(n, k));
    forall j: nat | j >= |Pack(names)| ensures j in zone2 <==> j in zone && j != k && j >= LocalCount(n, k) {
      CompactLookup(zone1, names, LocalCount(n, k), j);
      assert j in zone2 <==> At(zone2, j).Some?;
    }
    Leftover(zone, zone2, n, k, |Pack(names)|);
  }

  lemma Leftover(zone: Zone, zone2: Zone, n: nat, k: nat, m: nat)
    requires Contiguous(zone, n) && k < n
    requires forall j: nat :: j >= m ==> (j in zone2 <==> j in zone && j != k && j >= LocalCount(n, k))
    ensures (exists j: nat :: j >= m && j in zone2) <==> 0 < k < n - 1 && m < n
  {
    if 0 < k < n - 1 && m < n {
      assert n - 1 in zone2;
    }
  }

  /** Removing on an object and compacting on the same object: a fresh load then gives every other name. */
  method RemoveThenCompact(catalog: HostCatalog, host: string, ghost n: nat)
    returns (removed: bool, ok: bool, ghost clean: bool)
    requires WellFormed(catalog.server.zone, n)
    requires forall i: nat, j :: i < n && 0 <= j < |catalog.server.zone[i]| ==> |catalog.server.zone[i][j]| <= 253
    requires Normalize(host) in NamesIn(Load(catalog.server.zone)) ==> Empties(catalog.server.zone, Normalize(host))
    modifies catalog, catalog.server
    ensures removed && ok && clean ==>
              NamesIn(Load(catalog.server.zone)) == NamesIn(Load(old(catalog.server.zone))) - {Normalize(host)}
  {
    hide WellFormed;
    hide CompactTo;
    hide RemoveFrom;
    hide Empties;
    ghost var zone, name := catalog.server.zone, Normalize(host);
    var result := catalog.Remove(host);
    removed, ok, clean := result.Removed?, false, false;
    if !removed { return; }
    LocalCountIs(zone, n, name);
    ghost var names, oldCount;
    ghost var reached: nat;
    ghost var gone: set<nat>;
    ok, clean, names, oldCount, reached, gone := catalog.Compact();
    if ok && clean {
      CompactRepairs(zone, n, name, names);
    }
  }
}
