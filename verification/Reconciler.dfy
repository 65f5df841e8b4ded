/** The reconciler: methods that loop over stores and providers, each equal to its model function. */
module Reconciling {
  import opened Wrappers
  import opened Names
  import opened Backend
  import opened Model
  import opened Cache
  import opened Providers
  import Glob

  // ---- Discovery ----

  /** A valid name not seen before is added under its canonical form. */
  function AddFound(m: Found, h: Hostname): Found {
    var k := Normalize(h.name);
    if !ValidName(h) || k in m then m else m[k := h]
  }

  /** The first valid occurrence of each canonical name. */
  function FirstWins(hs: seq<Hostname>): Found {
    if hs == [] then map[] else AddFound(FirstWins(hs[..|hs| - 1]), hs[|hs| - 1])
  }

  function Flatten(workloads: seq<seq<Hostname>>): seq<Hostname> {
    if workloads == [] then [] else Flatten(workloads[..|workloads| - 1]) + workloads[|workloads| - 1]
  }

  /** A service name if a hint asks for SRV, and a host name otherwise. */
  ghost predicate ProperName(h: Hostname) {
    if h.hints.Some? && h.hints.value.rtype == Some(SRV) then ServiceName(h.name) else HostName(h.name)
  }

  lemma ValidIsProper(h: Hostname)
    ensures ValidName(h) <==> ProperName(h)
  {
    hide ValidHost;
    hide ValidService;
    hide HostName;
    hide ServiceName;
    ValidHostExactlyWhen(h.name);
    ValidServiceExactlyWhen(h.name);
  }

  ghost predicate NamesHost(h: Hostname, k: string) {
    ProperName(h) && Normalize(h.name) == k
  }

  ghost predicate FirstNaming(hs: seq<Hostname>, k: string, i: int) {
    0 <= i < |hs| && NamesHost(hs[i], k) && forall j :: 0 <= j < i ==> !NamesHost(hs[j], k)
  }

  lemma FirstWinsNext(hs: seq<Hostname>, h: Hostname)
    ensures FirstWins(hs + [h]) == AddFound(FirstWins(hs), h)
  {
  }

  /** The first occurrence found so far stays the first when the list grows. */
  lemma FirstNamingGrows(hs: seq<Hostname>, h: Hostname, k: string, i: int)
    requires FirstNaming(hs, k, i)
    ensures FirstNaming(hs + [h], k, i)
  {
  }

  /** Each discovered name stands for the first of its proper occurrences, and nothing else is discovered. */
  lemma {:induction false} FirstWinsExactly(hs: seq<Hostname>, k: string)
    ensures k in FirstWins(hs) ==> exists i :: FirstNaming(hs, k, i) && FirstWins(hs)[k] == hs[i]
    ensures k !in FirstWins(hs) ==> forall i :: 0 <= i < |hs| ==> !NamesHost(hs[i], k)
    decreases |hs|
  {
    hide ValidName;
    hide ProperName;
    if hs != [] {
      var n := |hs| - 1;
      var front := hs[..n];
      assert hs == front + [hs[n]];
      ValidIsProper(hs[n]);
      FirstWinsExactly(front, k);
      FirstWinsNext(front, hs[n]);
      if k in FirstWins(front) {
        var i :| FirstNaming(front, k, i) && FirstWins(front)[k] == front[i];
        FirstNamingGrows(front, hs[n], k, i);
        assert hs[i] == front[i];
      } else if k in FirstWins(hs) {
        assert FirstNaming(hs, k, n);
      }
    }
  }

  method AddHostnames(hs: seq<Hostname>, start: Found, ghost before: seq<Hostname>) returns (found: Found)
    requires start == FirstWins(before)
    ensures found == FirstWins(before + hs)
  {
    hide FirstWins;
    found := start;
    ghost var seen := before;
    for i := 0 to |hs|
      invariant seen == before + hs[..i]
      invariant found == FirstWins(seen)
    {
      FirstWinsNext(seen, hs[i]);
      found := AddFound(found, hs[i]);
      seen := seen + [hs[i]];
    }
    assert before + hs[..|hs|] == before + hs;
  }

  /** extractHostnames: workloads first, then files; invalid names are skipped and the first wins. */
  method ExtractHostnames(workloads: seq<seq<Hostname>>, files: seq<Hostname>) returns (found: Found)
    ensures found == FirstWins(Flatten(workloads) + files)
  {
    found := map[];
    for i := 0 to |workloads|
      invariant found == FirstWins(Flatten(workloads[..i]))
    {
      assert workloads[..i + 1][..i] == workloads[..i];
      found := AddHostnames(workloads[i], found, Flatten(workloads[..i]));
    }
    assert workloads[..|workloads|] == workloads;
    found := AddHostnames(files, found, Flatten(workloads));
  }

  // ---- Routing ----

  method MatchingProviders(reg: Registry, h: Hostname) returns (m: Registry)
    ensures m == Matching(reg, h)
  {
    m := [];
    for i := 0 to |reg|
      invariant m == Matching(reg[..i], h)
    {
      assert reg[..i + 1][..i] == reg[..i];
      var handled := Glob.Matches(reg[i].domains, h.name);
      if handled && PassesFilters(reg[i].filters, h.meta) {
        m := m + [reg[i]];
      }
    }
    assert reg[..|reg|] == reg;
  }

  type Slot = (Identity, RecordType)

  /** The loop of ensureRecord over the matching providers, with its map of slots seen. */
  method ChooseWriters(m: Registry) returns (writers: Registry)
    ensures writers == FirstPerSlot(m)
  {
    writers := [];
    var seen: set<Slot> := {};
    for i := 0 to |m|
      invariant writers == FirstPerSlot(m[..i])
      invariant forall k: Slot :: k in seen <==> exists j :: 0 <= j < i && (m[j].identity, m[j].rtype) == k
    {
      assert m[..i + 1][..i] == m[..i];
      var k: Slot := (m[i].identity, m[i].rtype);
      if k !in seen {
        seen := seen + {k};
        writers := writers + [m[i]];
      }
    }
    assert m[..|m|] == m;
  }

  // ---- Deciding ----

  method AnyOtherType(want: Record, existing: Store) returns (clash: bool)
    ensures clash <==> exists j :: 0 <= j < |existing| && existing[j].rtype != want.rtype
  {
    for i := 0 to |existing|
      invariant forall j :: 0 <= j < i ==> existing[j].rtype == want.rtype
    {
      if existing[i].rtype != want.rtype { return true; }
    }
    return false;
  }

  method ExactAndStale(want: Record, existing: Store) returns (exact: bool, stale: Store)
    ensures exact <==> exists j :: 0 <= j < |existing| && Exact(want, existing[j])
    ensures stale == StaleOf(want, existing)
  {
    exact, stale := false, [];
    for i := 0 to |existing|
      invariant exact <==> exists j :: 0 <= j < i && Exact(want, existing[j])
      invariant stale == StaleOf(want, existing[..i])
    {
      assert existing[..i + 1][..i] == existing[..i];
      if existing[i].target == want.target {
        if want.rtype.SRV? && existing[i].srv != want.srv {
          stale := stale + [existing[i]];
        } else {
          exact := true;
        }
      }
    }
    assert existing[..|existing|] == existing;
  }

  /** Steps 2 to 4 of ensureRecordForProvider: what the existing records call for. */
  method Analyze(want: Record, existing: Store) returns (plan: Plan)
    ensures plan == PlanFor(want, existing)
  {
    var clash := AnyOtherType(want, existing);
    if clash { return Clash; }
    var exact, stale := ExactAndStale(want, existing);
    if exact { return Keep(stale); }
    if existing != [] { return Change(stale, existing[0]); }
    return Fresh;
  }

  class Reconciler {
    var cfg: Config
    var registry: Registry
    const net: Network
    var known: set<string>
    var hostnameProviders: map<string, seq<string>>
    var recovered: map<string, Meta>

    constructor (cfg: Config, registry: Registry, net: Network)
      ensures this.cfg == cfg && this.registry == registry && this.net == net
      ensures State() == Proc({}, map[], map[])
    {
      this.cfg := cfg;
      this.registry := registry;
      this.net := net;
      known, hostnameProviders, recovered := {}, map[], map[];
    }

    function State(): Proc
      reads this
    {
      Proc(known, hostnameProviders, recovered)
    }

    /** newRecordCache. */
    method NewRecordCache() returns (cache: RecordCache, ghost snap: Snapshot)
      modifies net
      ensures (net.Now(), snap) == TakeSnapshot(net.env, registry, old(net.Now()))
      ensures Represents(cache, snap)
    {
      cache, snap := map[], map[];
      for i := 0 to |registry|
        invariant (net.Now(), snap) == TakeSnapshot(net.env, registry[..i], old(net.Now()))
        invariant Represents(cache, snap)
      {
        assert registry[..i + 1][..i] == registry[..i];
        var inst := registry[i];
        var listed := ListRecords(net, inst);
        if listed.None? {
          cache := cache[inst.name := None];
        } else {
          var index := IndexRecords(listed.value);
          cache := cache[inst.name := Some(index)];
        }
        snap := snap[inst.name := listed];
      }
      assert registry[..|registry|] == registry;
    }

    /** getRecoveredMetadata: returns what was recovered for the host, once. */
    method GetRecoveredMetadata(host: string) returns (meta: Meta)
      modifies this`recovered
      ensures meta == if Normalize(host) in old(recovered) then old(recovered)[Normalize(host)] else map[]
      ensures recovered == old(recovered) - {Normalize(host)}
    {
      var n := Normalize(host);
      if n !in recovered {
        assert recovered - {n} == recovered;
        return map[];
      }
      meta := recovered[n];
      recovered := recovered - {n};
    }

    /** ensureOwnershipRecord. */
    method EnsureOwnershipRecord(host: string, inst: Instance, meta: Meta, cache: RecordCache, ghost snap: Snapshot)
      requires Represents(cache, snap)
      modifies net
      ensures net.Now() == EnsureMarker(cfg, net.env, inst, host, meta, Owned(snap, inst, host, cfg.instanceID), old(net.Now()))
    {
      if !cfg.tracking { return; }
      var owned := HasMarker(cache, inst, host, cfg.instanceID, snap);
      if owned { return; }
      CreateOwnershipRecord(net, cfg, inst, host, meta);
    }

    /** The loop over the stale SRV records: its log line reads the SRV data of each and dies when there is none. */
    method DeleteStale(inst: Instance, host: string, stale: Store) returns (alive: bool)
      modifies net
      ensures alive <==> forall r :: r in stale ==> r.srv.Some?
      ensures net.Now() == PerformAll(old(net.Now()), net.env, StaleCalls(inst, host, UntilBare(stale)))
    {
      hide StaleCalls;
      ghost var w := net.Now();
      StaleNone(net.env, inst, host, stale, w);
      for i := 0 to |stale|
        invariant forall r :: r in stale[..i] ==> r.srv.Some?
        invariant net.Now() == PerformAll(w, net.env, StaleCalls(inst, host, stale[..i]))
      {
        BareAt(stale, i);
        if stale[i].srv.None? { return false; }
        assert stale[..i + 1] == stale[..i] + [stale[i]];
        StaleNext(net.env, inst, host, stale, i, w);
        var _ := net.Ask(DeleteSrv(inst, host, stale[i]));
      }
      assert stale[..|stale|] == stale;
      return true;
    }

    method CarryKeep(inst: Instance, want: Record, meta: Meta, stale: Store, cache: RecordCache, ghost snap: Snapshot)
      returns (kind: Kind, ok: bool)
      requires Represents(cache, snap)
      modifies net
      ensures Step(net.Now(), kind, ok)
           == Carry(cfg, net.env, inst, want, meta, Owned(snap, inst, want.host, cfg.instanceID), Keep(stale), old(net.Now()))
    {
      hide Model.UpdateRecord;
      hide StaleCalls;
      hide Owned;
      hide Model.EnsureMarker;
      hide PerformAll;
      var alive := DeleteStale(inst, want.host, stale);
      if !alive { return Panicked, false; }
      var owned := HasMarker(cache, inst, want.host, cfg.instanceID, snap);
      if owned || cfg.adopt {
        EnsureOwnershipRecord(want.host, inst, meta, cache, snap);
      }
      return Skipped, true;
    }

    method CarryChange(
      inst: Instance, want: Record, meta: Meta, stale: Store, prior: Record, cache: RecordCache, ghost snap: Snapshot)
      returns (kind: Kind, ok: bool)
      requires Represents(cache, snap)
      modifies net
      ensures Step(net.Now(), kind, ok)
           == Carry(cfg, net.env, inst, want, meta, Owned(snap, inst, want.host, cfg.instanceID), Change(stale, prior), old(net.Now()))
    {
      hide Model.UpdateRecord;
      hide StaleCalls;
      hide Owned;
      hide Model.EnsureMarker;
      hide PerformAll;
      var alive := DeleteStale(inst, want.host, stale);
      if !alive { return Panicked, false; }
      ok := Providers.UpdateRecord(net, inst, prior, want);
      if !ok { return Created, false; }
      EnsureOwnershipRecord(want.host, inst, meta, cache, snap);
      return Updated, true;
    }

    method CarryFresh(inst: Instance, want: Record, meta: Meta, cache: RecordCache, ghost snap: Snapshot)
      returns (kind: Kind, ok: bool)
      requires Represents(cache, snap)
      modifies net
      ensures Step(net.Now(), kind, ok)
           == Carry(cfg, net.env, inst, want, meta, Owned(snap, inst, want.host, cfg.instanceID), Fresh, old(net.Now()))
    {
      var reply := net.Ask(Call(inst.identity, Create(want)));
      if reply == AlreadyThere {
        EnsureOwnershipRecord(want.host, inst, meta, cache, snap);
        return Skipped, true;
      } else if reply == TypeClash {
        return Skipped, true;
      } else if reply != Done {
        return Created, false;
      }
      EnsureOwnershipRecord(want.host, inst, meta, cache, snap);
      return Created, true;
    }

    method FindExisting(inst: Instance, host: string, cache: RecordCache, ghost snap: Snapshot) returns (existing: Store)
      requires Represents(cache, snap)
      modifies net
      ensures (net.Now(), existing) == Existing(net.env, inst, host, snap, old(net.Now()))
    {
      var cached := Lookup(cache, inst, host, snap);
      if cached.Some? { return cached.value; }
      existing := GetExistingRecords(net, inst, host);
    }

    /** ensureRecordForProvider. */
    method EnsureRecordForProvider(h: Hostname, inst: Instance, cache: RecordCache, ghost snap: Snapshot)
      returns (alive: bool, action: Action)
      requires Represents(cache, snap)
      modifies net, this`recovered
      ensures recovered == Unused(h, old(recovered))
      ensures var step := EnsureWrite(cfg, net.env, snap, h, inst, WantedMeta(h, old(recovered)), old(net.Now()));
              && net.Now() == step.w && (alive <==> !step.kind.Panicked?)
              && action == Action(step.kind, step.ok, inst.name, h.name)
    {
      hide PlanFor;
      hide Existing;
      hide Owned;
      var want := WantedRecord(h, inst);
      assert want.host == h.name;
      var meta: Meta := map[];
      if HintsMeta(h) {
        meta := h.hints.value.meta;
      } else {
        meta := GetRecoveredMetadata(h.name);
      }
      if cfg.dryRun { return true, Action(Created, true, inst.name, h.name); }
      var existing := FindExisting(inst, h.name, cache, snap);
      var plan := Analyze(want, existing);
      var kind, ok := Skipped, true;
      match plan {
        case Clash =>
        case Keep(stale) => kind, ok := CarryKeep(inst, want, meta, stale, cache, snap);
        case Change(stale, prior) => kind, ok := CarryChange(inst, want, meta, stale, prior, cache, snap);
        case Fresh => kind, ok := CarryFresh(inst, want, meta, cache, snap);
      }
      return !kind.Panicked?, Action(kind, ok, inst.name, h.name);
    }

    /** ensureRecord: the explicit provider, or every writer of the host. */
    method EnsureRecord(h: Hostname, cache: RecordCache, ghost snap: Snapshot, ghost done: seq<Action>)
      returns (alive: bool, actions: seq<Action>)
      requires Represents(cache, snap)
      modifies net, this`recovered
      ensures EnsureJobs(cfg, net.env, snap, HostJobs(registry, h), Progress(old(net.Now()), old(recovered), done, true))
           == Progress(net.Now(), recovered, done + actions, alive)
    {
      hide EnsureWrite;
      hide WantedMeta;
      hide Unused;
      hide Matching;
      hide FirstPerSlot;
      var writers: Registry := [];
      if h.hints.Some? && h.hints.value.provider != "" {
        var inst := Find(registry, h.hints.value.provider);
        if inst.Some? {
          writers := [inst.value];
        }
      } else {
        var matching := MatchingProviders(registry, h);
        writers := ChooseWriters(matching);
      }
      assert writers == Writers(registry, h);
      alive, actions := true, [];
      assert done + [] == done;
      if writers == [] {
        actions := [Action(Skipped, true, "", h.name)];
        assert HostJobs(registry, h)[..0] == [];
        return;
      }
      alive, actions := EnsureEach(h, writers, cache, snap, done);
    }

    /** The loop of ensureRecord over the chosen writers. */
    method EnsureEach(h: Hostname, writers: Registry, cache: RecordCache, ghost snap: Snapshot, ghost done: seq<Action>)
      returns (alive: bool, actions: seq<Action>)
      requires Represents(cache, snap) && writers == Writers(registry, h) && writers != []
      modifies net, this`recovered
      ensures EnsureJobs(cfg, net.env, snap, HostJobs(registry, h), Progress(old(net.Now()), old(recovered), done, true))
           == Progress(net.Now(), recovered, done + actions, alive)
    {
      hide EnsureWrite;
      hide WantedMeta;
      hide Unused;
      hide Writers;
      alive, actions := true, [];
      ghost var st := Progress(net.Now(), recovered, done, true);
      assert done + [] == done;
      ghost var jobs := HostJobs(registry, h);
      for i := 0 to |writers|
        invariant alive
        invariant EnsureJobs(cfg, net.env, snap, jobs[..i], st) == Progress(net.Now(), recovered, done + actions, true)
      {
        assert jobs[..i + 1][..i] == jobs[..i];
        var action;
        alive, action := EnsureRecordForProvider(h, writers[i], cache, snap);
        if !alive {
          DeadRest(cfg, net.env, snap, jobs, i + 1, st);
          return;
        }
        assert done + (actions + [action]) == done + actions + [action];
        actions := actions + [action];
      }
      assert jobs[..|jobs|] == jobs;
    }

    // ---- Orphans ----

    /** getOrphanProviders. */
    method GetOrphanProviders(host: string) returns (ps: Registry)
      ensures ps == OrphanProviders(registry, hostnameProviders, host)
    {
      ps := [];
      if host in hostnameProviders && hostnameProviders[host] != [] {
        var names := hostnameProviders[host];
        for i := 0 to |names|
          invariant ps == FindAll(registry, names[..i])
        {
          assert names[..i + 1][..i] == names[..i];
          var inst := Find(registry, names[i]);
          if inst.Some? {
            ps := ps + [inst.value];
          }
        }
        assert names[..|names|] == names;
      } else {
        ps := MatchingByDomain(host);
      }
    }

    /** The registry's domain-only MatchingProviders. */
    method MatchingByDomain(host: string) returns (ps: Registry)
      ensures ps == MatchingDomains(registry, host)
    {
      ps := [];
      for i := 0 to |registry|
        invariant ps == MatchingDomains(registry[..i], host)
      {
        assert registry[..i + 1][..i] == registry[..i];
        var handled := Glob.Matches(registry[i].domains, host);
        if handled {
          ps := ps + [registry[i]];
        }
      }
      assert registry[..|registry|] == registry;
    }

    /** The records to delete: cached ones if there are any, else those of a fresh listing. */
    method FindRecords(inst: Instance, host: string, dataOnly: bool, cache: RecordCache, ghost snap: Snapshot)
      returns (records: Option<Store>)
      requires Represents(cache, snap)
      modifies net
      ensures (net.Now(), records) == RecordsToClean(net.env, inst, host, snap, dataOnly, old(net.Now()))
    {
      var cached := Lookup(cache, inst, host, snap);
      if cached.Some? && cached.value != [] { return cached; }
      var listed := ListRecords(net, inst);
      if listed.None? { return None; }
      var s := listed.value;
      var found: Store := [];
      for i := 0 to |s|
        invariant found == ByName(s[..i], host, dataOnly)
      {
        assert s[..i + 1][..i] == s[..i];
        if Normalize(s[i].host) == host && (!dataOnly || IsData(s[i].rtype)) {
          found := found + [s[i]];
        }
      }
      assert s[..|s|] == s;
      return Some(found);
    }

    /** deleteAuthoritativeForProvider: every record of a supported type, other than TXT. */
    method DeleteAuthoritative(host: string, inst: Instance, cache: RecordCache, ghost snap: Snapshot)
      requires Represents(cache, snap) && inst.mode.Authoritative?
      modifies net
      ensures net.Now() == CleanOne(cfg, net.env, snap, host, inst, old(net.Now()))
    {
      hide RemovalCalls;
      hide PerformAll;
      var found := FindRecords(inst, host, false, cache, snap);
      if found.None? { return; }
      var records := found.value;
      ghost var w := net.Now();
      RemovalsNone(cfg, net.env, inst, host, records, w);
      for i := 0 to |records|
        invariant net.Now() == if cfg.dryRun then w else PerformAll(w, net.env, RemovalCalls(cfg, inst, host, records[..i]))
      {
        RemovalsNext(cfg, net.env, inst, host, records, i, w);
        var record := records[i];
        if record.rtype !in inst.types { continue; }
        if record.rtype.TXT? { continue; }
        if cfg.dryRun { continue; }
        if record.rtype.SRV? {
          DeleteSRVRecord(net, inst, host, record.target, record.srv);
        } else {
          DeleteRecordByTarget(net, inst, host, record.rtype, record.target);
        }
      }
      assert records[..|records|] == records;
      if cfg.tracking {
        if !cfg.dryRun {
          DeleteOwnershipRecord(net, cfg, inst, host);
        }
      }
    }

    /** deleteManagedForProvider: every data record, if the host carries our marker. */
    method DeleteManaged(host: string, inst: Instance, cache: RecordCache, ghost snap: Snapshot)
      requires Represents(cache, snap) && NeedsMarker(cfg, inst)
      modifies net
      ensures net.Now() == CleanOne(cfg, net.env, snap, host, inst, old(net.Now()))
    {
      hide RemovalCalls;
      hide PerformAll;
      var owned := HasMarker(cache, inst, host, cfg.instanceID, snap);
      if !owned { return; }
      var found := FindRecords(inst, host, true, cache, snap);
      if found.None? { return; }
      var records := found.value;
      ghost var w := net.Now();
      RemovalsNone(cfg, net.env, inst, host, records, w);
      for i := 0 to |records|
        invariant net.Now() == if cfg.dryRun then w else PerformAll(w, net.env, RemovalCalls(cfg, inst, host, records[..i]))
      {
        RemovalsNext(cfg, net.env, inst, host, records, i, w);
        var record := records[i];
        if cfg.dryRun { continue; }
        if record.rtype.SRV? {
          DeleteSRVRecord(net, inst, host, record.target, record.srv);
        } else {
          DeleteRecordByTarget(net, inst, host, record.rtype, record.target);
        }
      }
      assert records[..|records|] == records;
      if !cfg.dryRun {
        DeleteOwnershipRecord(net, cfg, inst, host);
      }
    }

    /** The filter of deleteTargetMatchForProvider: the records of the instance's own type and target. */
    method TargetMatched(inst: Instance, ghost host: string, records: Store) returns (matched: Store)
      requires inst.mode.Managed? && cfg.tracking && !inst.ownershipTXT
      ensures RemovalCalls(cfg, inst, host, matched) == RemovalCalls(cfg, inst, host, records)
      ensures forall r :: r in matched ==> Removable(cfg, inst, r)
    {
      matched := [];
      for i := 0 to |records|
        invariant RemovalCalls(cfg, inst, host, matched) == RemovalCalls(cfg, inst, host, records[..i])
        invariant forall r :: r in matched ==> Removable(cfg, inst, r)
      {
        assert records[..i + 1][..i] == records[..i];
        if records[i].rtype == inst.rtype && records[i].target == inst.target {
          assert (matched + [records[i]])[..|matched|] == matched;
          matched := matched + [records[i]];
        }
      }
      assert records[..|records|] == records;
    }

    /** deleteTargetMatchForProvider: without markers, type and target decide. */
    method DeleteTargetMatch(host: string, inst: Instance, cache: RecordCache, ghost snap: Snapshot)
      requires Represents(cache, snap) && inst.mode.Managed? && cfg.tracking && !inst.ownershipTXT
      modifies net
      ensures net.Now() == CleanOne(cfg, net.env, snap, host, inst, old(net.Now()))
    {
      hide RemovalCalls;
      hide PerformAll;
      hide Cached;
      hide Listed;
      var found := FindRecords(inst, host, false, cache, snap);
      if found.None? { return; }
      ghost var w := net.Now();
      var matched := TargetMatched(inst, host, found.value);
      RemovalsNone(cfg, net.env, inst, host, matched, w);
      if matched == [] { return; }
      for i := 0 to |matched|
        invariant net.Now() == if cfg.dryRun then w else PerformAll(w, net.env, RemovalCalls(cfg, inst, host, matched[..i]))
      {
        RemovalsNext(cfg, net.env, inst, host, matched, i, w);
        if cfg.dryRun { continue; }
        DeleteRecordByTarget(net, inst, host, matched[i].rtype, matched[i].target);
      }
      assert matched[..|matched|] == matched;
    }

    /** deleteCacheOnlyForProvider, which does not ask about dry runs before it deletes. */
    method DeleteCacheOnly(host: string, inst: Instance, cache: RecordCache, ghost snap: Snapshot)
      requires Represents(cache, snap) && inst.mode.Managed? && !cfg.tracking
      modifies net
      ensures net.Now() == CleanOne(cfg, net.env, snap, host, inst, old(net.Now()))
    {
      hide RemovalCalls;
      hide PerformAll;
      var found := FindRecords(inst, host, true, cache, snap);
      if found.None? { return; }
      var records := found.value;
      ghost var w := net.Now();
      RemovalsNone(cfg, net.env, inst, host, records, w);
      for i := 0 to |records|
        invariant net.Now() == PerformAll(w, net.env, RemovalCalls(cfg, inst, host, records[..i]))
      {
        RemovalsNext(cfg, net.env, inst, host, records, i, w);
        var record := records[i];
        if record.rtype.SRV? {
          DeleteSRVRecord(net, inst, host, record.target, record.srv);
        } else {
          DeleteRecordByTarget(net, inst, host, record.rtype, record.target);
        }
      }
      assert records[..|records|] == records;
    }

    /** deleteOrphanForProvider: by mode. */
    method DeleteOrphanForProvider(host: string, inst: Instance, cache: RecordCache, ghost snap: Snapshot)
      requires Represents(cache, snap)
      modifies net
      ensures net.Now() == CleanOne(cfg, net.env, snap, host, inst, old(net.Now()))
    {
      if inst.mode.Additive? { return; }
      if inst.mode.Authoritative? {
        DeleteAuthoritative(host, inst, cache, snap);
      } else if cfg.tracking {
        if inst.ownershipTXT {
          DeleteManaged(host, inst, cache, snap);
        } else {
          DeleteTargetMatch(host, inst, cache, snap);
        }
      } else {
        DeleteCacheOnly(host, inst, cache, snap);
      }
    }

    method SweepHost(host: string, cache: RecordCache, ghost snap: Snapshot)
      requires Represents(cache, snap)
      modifies net
      ensures net.Now() == CleanAll(cfg, net.env, snap, HostSweeps(registry, hostnameProviders, host), old(net.Now()))
    {
      var ps := GetOrphanProviders(host);
      ghost var sweeps := HostSweeps(registry, hostnameProviders, host);
      for i := 0 to |ps|
        invariant net.Now() == CleanAll(cfg, net.env, snap, sweeps[..i], old(net.Now()))
      {
        assert sweeps[..i + 1][..i] == sweeps[..i];
        DeleteOrphanForProvider(host, ps[i], cache, snap);
      }
      assert sweeps[..|sweeps|] == sweeps;
    }

    /** The counting loop of cleanupOrphans, over a map in any order. */
    method CountOrphans(found: Found) returns (n: nat)
      ensures n == |known - found.Keys|
    {
      n := 0;
      var order := VisitOrder(known);
      for i := 0 to |order|
        invariant n == |OrphansIn(order[..i], found)|
      {
        assert order[..i + 1][..i] == order[..i];
        if order[i] !in found {
          n := n + 1;
        }
      }
      assert order[..|order|] == order;
      OrphansListed(order, known, found);
      EnumerationSize(OrphansIn(order, found), Orphans(known, found));
    }

    /** cleanupOrphans: the breaker, then every orphan in whatever order the map yields it. */
    method CleanupOrphans(found: Found, cache: RecordCache, ghost snap: Snapshot) returns (ghost order: seq<string>)
      requires Represents(cache, snap)
      modifies net
      ensures Enumerates(order, Orphans(known, found))
      ensures net.Now() == if 2 * |known - found.Keys| > |known| && |known - found.Keys| > 1 then old(net.Now())
                           else CleanAll(cfg, net.env, snap, SweepsFor(registry, hostnameProviders, order), old(net.Now()))
    {
      var n := CountOrphans(found);
      if 2 * n > |known| && n > 1 {
        order := SomeOrder(Orphans(known, found));
      } else {
        order := SweepAll(found, cache, snap);
      }
    }

    method SweepIfOrphan(
      host: string, found: Found, cache: RecordCache, ghost snap: Snapshot, ghost before: seq<string>, ghost w: World)
      requires Represents(cache, snap)
      requires net.Now() == CleanAll(cfg, net.env, snap, SweepsFor(registry, hostnameProviders, OrphansIn(before, found)), w)
      modifies net
      ensures net.Now()
           == CleanAll(cfg, net.env, snap, SweepsFor(registry, hostnameProviders, OrphansIn(before + [host], found)), w)
    {
      assert (before + [host])[..|before|] == before;
      if host !in found {
        SweepNext(cfg, net.env, snap, registry, hostnameProviders, OrphansIn(before, found), host, w);
        SweepHost(host, cache, snap);
      } else {
        assert OrphansIn(before + [host], found) == OrphansIn(before, found);
      }
    }

    method SweepAll(found: Found, cache: RecordCache, ghost snap: Snapshot) returns (ghost order: seq<string>)
      requires Represents(cache, snap)
      modifies net
      ensures Enumerates(order, Orphans(known, found))
      ensures net.Now() == CleanAll(cfg, net.env, snap, SweepsFor(registry, hostnameProviders, order), old(net.Now()))
    {
      var visit := VisitOrder(known);
      OrphansListed(visit, known, found);
      order := OrphansIn(visit, found);
      SweepVisit(visit, found, cache, snap);
    }

    method SweepVisit(visit: seq<string>, found: Found, cache: RecordCache, ghost snap: Snapshot)
      requires Represents(cache, snap)
      modifies net
      ensures net.Now()
           == CleanAll(cfg, net.env, snap, SweepsFor(registry, hostnameProviders, OrphansIn(visit, found)), old(net.Now()))
    {
      hide OrphansIn;
      hide SweepsFor;
      hide CleanAll;
      ghost var w := net.Now();
      assert visit[..0] == [];
      SweepNone(cfg, net.env, snap, registry, hostnameProviders, found, w);
      for i := 0 to |visit|
        invariant net.Now()
               == CleanAll(cfg, net.env, snap, SweepsFor(registry, hostnameProviders, OrphansIn(visit[..i], found)), w)
      {
        SweepIfOrphan(visit[i], found, cache, snap, visit[..i], w);
        assert visit[..i + 1] == visit[..i] + [visit[i]];
      }
      assert visit[..|visit|] == visit;
    }

    // ---- The cycle ----

    /** The mapping loop of Reconcile over the actions of one host. */
    method RememberAll(actions: seq<Action>, start: map<string, seq<string>>, ghost before: seq<Action>)
      returns (m: map<string, seq<string>>)
      requires start == MappingOf(before)
      ensures m == MappingOf(before + actions)
    {
      hide Remember;
      m := start;
      ghost var seen := before;
      for i := 0 to |actions|
        invariant seen == before + actions[..i]
        invariant m == MappingOf(seen)
      {
        var a := actions[i];
        assert (seen + [a])[..|seen|] == seen;
        if a.provider != "" && !a.kind.Skipped? {
          m := Remember(m, a.host, a.provider);
        }
        seen := seen + [a];
      }
      assert before + actions[..|actions|] == before + actions;
    }

    method EnsureNext(
      k: string, found: Found, cache: RecordCache, ghost snap: Snapshot, start: map<string, seq<string>>,
      ghost before: seq<string>, ghost st: Progress, ghost done: seq<Action>)
      returns (alive: bool, mapping: map<string, seq<string>>, ghost more: seq<Action>)
      requires Represents(cache, snap)
      requires k in found && forall x :: x in before ==> x in found
      requires EnsureJobs(cfg, net.env, snap, JobsFor(registry, found, before), st)
            == Progress(net.Now(), recovered, done, true)
      requires start == MappingOf(done)
      modifies net, this`recovered
      ensures forall x :: x in before + [k] ==> x in found
      ensures EnsureJobs(cfg, net.env, snap, JobsFor(registry, found, before + [k]), st)
           == Progress(net.Now(), recovered, done + more, alive)
      ensures alive ==> mapping == MappingOf(done + more)
    {
      JobsNext(cfg, net.env, snap, registry, found, before, k, st);
      var actions;
      alive, actions := EnsureRecord(found[k], cache, snap, done);
      mapping, more := start, actions;
      if alive {
        mapping := RememberAll(actions, start, done);
      }
    }

    /** Step 4 of Reconcile: every discovered host, in whatever order the map yields it, or until the process dies. */
    method EnsureAll(found: Found, cache: RecordCache, ghost snap: Snapshot)
      returns (alive: bool, mapping: map<string, seq<string>>, ghost order: seq<string>, ghost actions: seq<Action>)
      requires Represents(cache, snap)
      modifies net, this`recovered
      ensures Enumerates(order, found.Keys)
      ensures EnsureJobs(cfg, net.env, snap, JobsFor(registry, found, order), Progress(old(net.Now()), old(recovered), [], true))
           == Progress(net.Now(), recovered, actions, alive)
      ensures alive ==> mapping == MappingOf(actions)
    {
      hide EnsureJobs;
      hide JobsFor;
      hide MappingOf;
      alive, mapping, actions := true, map[], [];
      ghost var st := Progress(net.Now(), recovered, [], true);
      var visit := VisitOrder(found.Keys);
      EnsureNone(cfg, net.env, snap, registry, found, st);
      assert visit[..0] == [];
      for i := 0 to |visit|
        invariant alive
        invariant EnsureJobs(cfg, net.env, snap, JobsFor(registry, found, visit[..i]), st)
               == Progress(net.Now(), recovered, actions, true)
        invariant mapping == MappingOf(actions)
      {
        var k := visit[i];
        assert k in visit && visit[..i + 1] == visit[..i] + [k];
        ghost var more;
        alive, mapping, more := EnsureNext(k, found, cache, snap, mapping, visit[..i], st, actions);
        actions := actions + more;
        if !alive {
          order := visit;
          DeadOrder(cfg, net.env, snap, registry, found, visit, i + 1, st);
          return;
        }
      }
      assert visit[..|visit|] == visit;
      order := visit;
    }

    /**
     * Reconcile.  A lister that fails ends the cycle before it starts; otherwise the cycle is the
     * model's, for the orders in which the maps happened to be visited, and `alive` says whether the
     * process outlives it.
     */
    method Reconcile(workloads: Option<seq<seq<Hostname>>>, files: seq<Hostname>)
      returns (ran: bool, alive: bool, ghost orders: Orders)
      modifies net, this
      ensures cfg == old(cfg) && registry == old(registry)
      ensures ran <==> workloads.Some? || !cfg.enabled
      ensures !ran || !cfg.enabled ==> alive && State() == old(State()) && net.Now() == old(net.Now())
      ensures ran && cfg.enabled ==>
                var found := FirstWins(Flatten(workloads.value) + files);
                && OrdersFit(orders, old(State()), found)
                && Pass(State(), net.Now(), alive)
                   == Cycle(cfg, net.env, registry, found, orders, old(State()), old(net.Now()))
    {
      orders := Orders([], []);
      if !cfg.enabled { return true, true, orders; }
      if workloads.None? { return false, true, orders; }
      ran := true;
      var found := ExtractHostnames(workloads.value, files);
      var cache, snap := NewRecordCache();
      ghost var actions: seq<Action>;
      var mapping: map<string, seq<string>>;
      ghost var hosts: seq<string>;
      alive, mapping, hosts, actions := EnsureAll(found, cache, snap);
      ghost var orphans: seq<string>;
      if !alive {
        orphans := SomeOrder(Orphans(known, found));
        orders := Orders(hosts, orphans);
        return;
      }
      if cfg.cleanup {
        orphans := CleanupOrphans(found, cache, snap);
      } else {
        orphans := SomeOrder(Orphans(known, found));
      }
      orders := Orders(hosts, orphans);
      known := found.Keys;
      hostnameProviders := mapping;
    }

    /** RecoverOwnership. */
    method RecoverOwnership()
      modifies net, this`known, this`hostnameProviders, this`recovered
      ensures Pass(State(), net.Now(), true) == Recover(cfg, net.env, registry, old(State()), old(net.Now()))
    {
      hide Learn;
      hide RecoverFrom;
      hide Listed;
      hide Perform;
      if !cfg.cleanup || !cfg.tracking { return; }
      var meta: map<string, Meta> := map[];
      ghost var start := State().(rec := map[]);
      for i := 0 to |registry|
        invariant Pass(Proc(known, hostnameProviders, meta), net.Now(), true)
               == RecoverAll(cfg, net.env, registry[..i], start, old(net.Now()))
      {
        assert registry[..i + 1][..i] == registry[..i];
        meta := RecoverOne(registry[i], meta);
      }
      assert registry[..|registry|] == registry;
      recovered := meta;
    }

    method RecoverOne(inst: Instance, start: map<string, Meta>) returns (meta: map<string, Meta>)
      modifies net, this`known, this`hostnameProviders
      ensures var (w, listed) := Listed(net.env, inst, old(net.Now()));
              var before := Proc(old(known), old(hostnameProviders), start);
              && net.Now() == w
              && Proc(known, hostnameProviders, meta)
                 == if listed.Some? then Learn(before, inst.name, RecoverFrom(listed.value, cfg.instanceID)) else before
    {
      meta := start;
      var hosts := RecoverOwnedHostnames(net, cfg, inst);
      if hosts.Some? {
        meta := LearnHosts(inst.name, hosts.value, meta);
      }
    }

    method LearnHosts(provider: string, hosts: seq<Recovered>, start: map<string, Meta>) returns (meta: map<string, Meta>)
      modifies this`known, this`hostnameProviders
      ensures Proc(known, hostnameProviders, meta)
           == Learn(Proc(old(known), old(hostnameProviders), start), provider, hosts)
    {
      meta := start;
      for i := 0 to |hosts|
        invariant Proc(known, hostnameProviders, meta)
               == Learn(Proc(old(known), old(hostnameProviders), start), provider, hosts[..i])
      {
        assert hosts[..i + 1][..i] == hosts[..i];
        var host := Normalize(hosts[i].host);
        known := known + {host};
        hostnameProviders := Remember(hostnameProviders, host, provider);
        if hosts[i].meta != map[] {
          meta := meta[host := hosts[i].meta];
        }
      }
      assert hosts[..|hosts|] == hosts;
    }
  }

  /** The order in which an iteration over a map happens to visit its keys. */
  method VisitOrder(s: set<string>) returns (order: seq<string>)
    ensures Enumerates(order, s)
  {
    order := [];
    var left := s;
    while left != {}
      invariant left <= s && Enumerates(order, s - left)
      decreases |left|
    {
      var x :| x in left;
      EnumerateSnoc(order, s - left, x);
      assert s - left + {x} == s - (left - {x});
      order := order + [x];
      left := left - {x};
    }
    assert s - {} == s;
  }

  function OrphansIn(order: seq<string>, found: Found): seq<string> {
    if order == [] then []
    else
      var n := |order| - 1;
      OrphansIn(order[..n], found) + (if order[n] !in found then [order[n]] else [])
  }

  lemma {:induction false} OrphansListed(order: seq<string>, s: set<string>, found: Found)
    requires Enumerates(order, s)
    ensures Enumerates(OrphansIn(order, found), Orphans(s, found))
    decreases |order|
  {
    if order == [] {
      assert forall k :: k in s ==> k in order;
    } else {
      var n := |order| - 1;
      var x := order[n];
      assert x in order;
      assert forall k :: k in order <==> k in order[..n] || k == x;
      OrphansListed(order[..n], s - {x}, found);
      if x in found {
        assert Orphans(s, found) == Orphans(s - {x}, found);
      } else {
        EnumerateSnoc(OrphansIn(order[..n], found), Orphans(s - {x}, found), x);
        assert Orphans(s, found) == Orphans(s - {x}, found) + {x};
      }
    }
  }

  lemma EnumerateSnoc(order: seq<string>, s: set<string>, x: string)
    requires Enumerates(order, s) && x !in s
    ensures Enumerates(order + [x], s + {x})
  {
  }

  lemma EnsureNone(cfg: Config, env: Env, snap: Snapshot, reg: Registry, found: Found, st: Progress)
    ensures EnsureJobs(cfg, env, snap, JobsFor(reg, found, []), st) == st && MappingOf([]) == map[]
  {
  }

  lemma SweepNone(
    cfg: Config, env: Env, snap: Snapshot, reg: Registry, mapping: map<string, seq<string>>, found: Found, w: World)
    ensures CleanAll(cfg, env, snap, SweepsFor(reg, mapping, OrphansIn([], found)), w) == w
  {
  }

  lemma SweepNext(
    cfg: Config, env: Env, snap: Snapshot, reg: Registry, mapping: map<string, seq<string>>, order: seq<string>,
    host: string, w: World)
    ensures CleanAll(cfg, env, snap, SweepsFor(reg, mapping, order + [host]), w)
         == CleanAll(cfg, env, snap, HostSweeps(reg, mapping, host),
                     CleanAll(cfg, env, snap, SweepsFor(reg, mapping, order), w))
  {
    assert (order + [host])[..|order|] == order;
    CleanAllAppend(cfg, env, snap, SweepsFor(reg, mapping, order), HostSweeps(reg, mapping, host), w);
  }

  lemma StaleNone(env: Env, inst: Instance, host: string, stale: Store, w: World)
    ensures PerformAll(w, env, StaleCalls(inst, host, stale[..0])) == w
  {
  }

  lemma StaleNext(env: Env, inst: Instance, host: string, stale: Store, i: nat, w: World)
    requires i < |stale|
    ensures PerformAll(w, env, StaleCalls(inst, host, stale[..i + 1]))
         == Perform(PerformAll(w, env, StaleCalls(inst, host, stale[..i])), env, DeleteSrv(inst, host, stale[i]))
  {
    var calls := StaleCalls(inst, host, stale[..i]);
    assert StaleCalls(inst, host, stale[..i + 1]) == calls + [DeleteSrv(inst, host, stale[i])];
    PerformAllSnoc(w, env, calls, DeleteSrv(inst, host, stale[i]));
  }

  /** Where the loop over the stale records stops. */
  lemma {:induction false} BareAt(stale: Store, i: nat)
    requires i < |stale| && forall r :: r in stale[..i] ==> r.srv.Some?
    ensures stale[i].srv.None? ==> UntilBare(stale) == stale[..i] && stale[i] in stale
  {
    if i > 0 {
      assert stale[0] in stale[..i] && stale[1..][..i - 1] == stale[..i][1..];
      BareAt(stale[1..], i - 1);
      assert stale[..i] == [stale[0]] + stale[1..][..i - 1];
    }
  }

  /** Once the process is dead, the rest of the jobs is not done. */
  lemma DeadRest(cfg: Config, env: Env, snap: Snapshot, jobs: seq<Job>, i: nat, st: Progress)
    requires i <= |jobs| && !EnsureJobs(cfg, env, snap, jobs[..i], st).alive
    ensures EnsureJobs(cfg, env, snap, jobs, st) == EnsureJobs(cfg, env, snap, jobs[..i], st)
  {
    assert jobs == jobs[..i] + jobs[i..];
    EnsureJobsAppend(cfg, env, snap, jobs[..i], jobs[i..], st);
    DeadEnsures(cfg, env, snap, jobs[i..], EnsureJobs(cfg, env, snap, jobs[..i], st));
  }

  lemma {:induction false} DeadOrder(
    cfg: Config, env: Env, snap: Snapshot, reg: Registry, found: Found, order: seq<string>, i: nat, st: Progress)
    requires (forall k :: k in order ==> k in found) && i <= |order|
    requires !EnsureJobs(cfg, env, snap, JobsFor(reg, found, order[..i]), st).alive
    ensures EnsureJobs(cfg, env, snap, JobsFor(reg, found, order), st)
         == EnsureJobs(cfg, env, snap, JobsFor(reg, found, order[..i]), st)
    decreases |order|
  {
    hide EnsureJob;
    hide HostJobs;
    hide EnsureJobs;
    hide JobsFor;
    if i == |order| {
      assert order[..i] == order;
    } else {
      var n := |order| - 1;
      assert order[..n][..i] == order[..i] && order[..n] + [order[n]] == order;
      assert forall k :: k in order[..n] ==> k in order;
      assert order[n] in order;
      DeadOrder(cfg, env, snap, reg, found, order[..n], i, st);
      JobsNext(cfg, env, snap, reg, found, order[..n], order[n], st);
      DeadEnsures(cfg, env, snap, HostJobs(reg, found[order[n]]),
                  EnsureJobs(cfg, env, snap, JobsFor(reg, found, order[..n]), st));
    }
  }

  lemma RemovalsNone(cfg: Config, env: Env, inst: Instance, host: string, records: Store, w: World)
    ensures PerformAll(w, env, RemovalCalls(cfg, inst, host, records[..0])) == w
  {
    assert records[..0] == [];
  }

  lemma RemovalsNext(cfg: Config, env: Env, inst: Instance, host: string, records: Store, i: nat, w: World)
    requires i < |records|
    ensures var before := PerformAll(w, env, RemovalCalls(cfg, inst, host, records[..i]));
            PerformAll(w, env, RemovalCalls(cfg, inst, host, records[..i + 1])) ==
            if Removable(cfg, inst, records[i]) then Perform(before, env, RemovalCall(cfg, inst, host, records[i])) else before
  {
    hide Perform;
    var calls, longer := RemovalCalls(cfg, inst, host, records[..i]), records[..i + 1];
    assert longer[..i] == records[..i] && longer[i] == records[i];
    if Removable(cfg, inst, records[i]) {
      assert RemovalCalls(cfg, inst, host, longer) == calls + [RemovalCall(cfg, inst, host, records[i])];
      PerformAllSnoc(w, env, calls, RemovalCall(cfg, inst, host, records[i]));
    } else {
      assert RemovalCalls(cfg, inst, host, longer) == calls;
    }
  }

  lemma {:induction false} CleanAllAppend(cfg: Config, env: Env, snap: Snapshot, a: seq<Sweep>, b: seq<Sweep>, w: World)
    ensures CleanAll(cfg, env, snap, a + b, w) == CleanAll(cfg, env, snap, b, CleanAll(cfg, env, snap, a, w))
    decreases |b|
  {
    if b == [] {
      assert a + b == a;
    } else {
      var n := |b| - 1;
      assert (a + b)[..|a + b| - 1] == a + b[..n];
      CleanAllAppend(cfg, env, snap, a, b[..n], w);
    }
  }
}
