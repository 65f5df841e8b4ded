/** The per-cycle record cache: a map of maps, which answers as a scan of the listing would. */
module Cache {
  import opened Wrappers
  import opened Names
  import opened Backend
  import opened Model
  import Own = Ownership

  type ByHost = map<string, Store>
  type RecordCache = map<string, Option<ByHost>>

  /** All records of a canonical name, in store order. */
  function Named(s: Store, name: string): Store {
    if s == [] then []
    else
      var n := |s| - 1;
      Named(s[..n], name) + (if Normalize(s[n].host) == name then [s[n]] else [])
  }

  function OnlyData(s: Store): Store {
    if s == [] then []
    else
      var n := |s| - 1;
      OnlyData(s[..n]) + (if IsData(s[n].rtype) then [s[n]] else [])
  }

  function Entry(index: ByHost, name: string): Store {
    if name in index then index[name] else []
  }

  ghost predicate Indexes(index: ByHost, s: Store) {
    forall n :: Entry(index, n) == Named(s, n)
  }

  /** The cache holds, for each provider, an index of what it listed, or nothing where listing failed. */
  ghost predicate Represents(cache: RecordCache, snap: Snapshot) {
    && cache.Keys == snap.Keys
    && forall p :: p in cache ==>
         && (cache[p].Some? <==> snap[p].Some?)
         && (cache[p].Some? ==> Indexes(cache[p].value, snap[p].value))
  }

  function AddRecord(index: ByHost, r: Record): ByHost {
    var n := Normalize(r.host);
    index[n := Entry(index, n) + [r]]
  }

  lemma AddIndexed(index: ByHost, s: Store, i: nat)
    requires i < |s| && Indexes(index, s[..i])
    ensures Indexes(AddRecord(index, s[i]), s[..i + 1])
  {
    forall n ensures Entry(AddRecord(index, s[i]), n) == Named(s[..i + 1], n) {
      NamedNext(s, i, n);
      assert Entry(index, n) == Named(s[..i], n);
    }
  }

  lemma NamedNext(s: Store, i: nat, name: string)
    requires i < |s|
    ensures Named(s[..i + 1], name) == Named(s[..i], name) + (if Normalize(s[i].host) == name then [s[i]] else [])
  {
    assert s[..i + 1][..i] == s[..i];
  }

  /** The inner loop of newRecordCache. */
  method IndexRecords(s: Store) returns (index: ByHost)
    ensures Indexes(index, s)
  {
    index := map[];
    for i := 0 to |s|
      invariant Indexes(index, s[..i])
    {
      AddIndexed(index, s, i);
      index := AddRecord(index, s[i]);
    }
    assert s[..|s|] == s;
  }

  lemma {:induction false} DataOfNamed(s: Store, name: string)
    ensures OnlyData(Named(s, name)) == DataAt(s, name)
    decreases |s|
  {
    if s != [] {
      var n := |s| - 1;
      DataOfNamed(s[..n], name);
      if Normalize(s[n].host) == name {
        assert Named(s, name)[..|Named(s, name)| - 1] == Named(s[..n], name);
      } else {
        assert Named(s, name) == Named(s[..n], name);
      }
    }
  }

  /** The filtering loop of getExistingRecords and getAllRecordsForHostname. */
  method FilterData(s: Store) returns (t: Store)
    ensures t == OnlyData(s)
  {
    t := [];
    for i := 0 to |s|
      invariant t == OnlyData(s[..i])
    {
      assert s[..i + 1][..i] == s[..i];
      if IsData(s[i].rtype) {
        t := t + [s[i]];
      }
    }
    assert s[..|s|] == s;
  }

  /** getExistingRecords and getAllRecordsForHostname: the same records, in the same order, as a scan. */
  method Lookup(cache: RecordCache, inst: Instance, host: string, ghost snap: Snapshot) returns (found: Option<Store>)
    requires Represents(cache, snap)
    ensures found == Cached(snap, inst, host)
  {
    if inst.name !in cache || cache[inst.name].None? { return None; }
    var n := Normalize(host);
    var index := cache[inst.name].value;
    var records := FilterData(Entry(index, n));
    DataOfNamed(snap[inst.name].value, n);
    return Some(records);
  }

  lemma {:induction false} NamedMembers(s: Store, name: string)
    ensures forall r :: r in Named(s, name) <==> r in s && Normalize(r.host) == name
    decreases |s|
  {
    if s != [] {
      var n := |s| - 1;
      assert s == s[..n] + [s[n]];
      NamedMembers(s[..n], name);
    }
  }

  method AnyMarker(records: Store, id: string) returns (found: bool)
    ensures found <==> exists r :: r in records && r.rtype.TXT? && Own.MatchesOwnership(r.target, id)
  {
    for i := 0 to |records|
      invariant forall r :: r in records[..i] ==> !(r.rtype.TXT? && Own.MatchesOwnership(r.target, id))
    {
      assert records[..i + 1] == records[..i] + [records[i]];
      if records[i].rtype.TXT? && Own.MatchesOwnership(records[i].target, id) {
        assert records[i] in records;
        return true;
      }
    }
    assert records[..|records|] == records;
    return false;
  }

  lemma MarkedByName(s: Store, host: string, id: string)
    ensures Marked(s, host, id)
       <==> exists r :: r in Named(s, Normalize(Marker(host))) && r.rtype.TXT? && Own.MatchesOwnership(r.target, id)
  {
    var n := Normalize(Marker(host));
    NamedMembers(s, n);
    if Marked(s, host, id) {
      var r :| r in s && IsMarkerOf(r, host, id);
      assert r in Named(s, n);
    }
    forall r | r in Named(s, n) && r.rtype.TXT? && Own.MatchesOwnership(r.target, id) ensures Marked(s, host, id) {
      assert r in s && IsMarkerOf(r, host, id);
    }
  }

  /** hasOwnershipRecord. */
  method HasMarker(cache: RecordCache, inst: Instance, host: string, id: string, ghost snap: Snapshot) returns (owned: bool)
    requires Represents(cache, snap)
    ensures owned == Owned(snap, inst, host, id)
  {
    if inst.name !in cache || cache[inst.name].None? { return false; }
    var n := Normalize(Marker(host));
    var index := cache[inst.name].value;
    MarkedByName(snap[inst.name].value, host, id);
    owned := AnyMarker(Entry(index, n), id);
  }

  /** The fallback query compares names more strictly than the cache: it never finds more. */
  lemma FallbackFindsNoMore(s: Store, host: string)
    ensures forall r :: r in DataFolded(s, host) ==> r in DataAt(s, Normalize(host))
  {
    forall r | r in DataFolded(s, host) ensures r in DataAt(s, Normalize(host)) {
      EqualFoldNormalizes(r.host, host);
    }
  }

  /** The two agree exactly when no data record of the host differs from it by a trailing dot. */
  lemma {:induction false} FallbackAgreesExactlyWhen(s: Store, host: string)
    ensures DataFolded(s, host) == DataAt(s, Normalize(host))
       <==> forall r :: r in s && IsData(r.rtype) && Normalize(r.host) == Normalize(host) ==> Lower(r.host) == Lower(host)
    decreases |s|
  {
    if s != [] {
      var n := |s| - 1;
      assert s == s[..n] + [s[n]];
      FallbackAgreesExactlyWhen(s[..n], host);
      if Lower(s[n].host) == Lower(host) { EqualFoldNormalizes(s[n].host, host); }
      FallbackLength(s[..n], host);
      var a, b := DataFolded(s[..n], host), DataAt(s[..n], Normalize(host));
      if IsData(s[n].rtype) && Lower(s[n].host) == Lower(host) {
        assert (a + [s[n]])[..|a|] == a && (b + [s[n]])[..|b|] == b;
      }
    }
  }

  lemma {:induction false} FallbackLength(s: Store, host: string)
    ensures |DataFolded(s, host)| <= |DataAt(s, Normalize(host))|
    decreases |s|
  {
    if s != [] {
      var n := |s| - 1;
      FallbackLength(s[..n], host);
      if Lower(s[n].host) == Lower(host) { EqualFoldNormalizes(s[n].host, host); }
    }
  }

  /** HasOwnershipRecord, the uncached check, asks for the literal name; what it finds the cache finds. */
  lemma UncachedMarkerIsCached(s: Store, r: Record, host: string, id: string)
    requires r in s && r.host == Marker(host) && r.rtype.TXT? && Own.MatchesOwnership(r.target, id)
    ensures Marked(s, host, id)
  {
  }
}
