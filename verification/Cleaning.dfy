/** Exactly which records a cleanup without failures takes away. */
module Cleaning {
  import opened Wrappers
  import opened Names
  import opened Backend
  import opened Model
  import opened Traces
  import opened Settling
  import opened Isolation
  import opened Convergence
  import opened Fixpoint
  import opened Orphans
  import Own = Ownership

  // ---- What goes, mode by mode ----

  predicate Named(host: string, r: Record) {
    Normalize(r.host) == host
  }

  /** The host's marker as it is printed for an ID without metadata. */
  ghost predicate BareMarker(id: string, host: string, r: Record) {
    r.rtype == TXT && Normalize(r.host) == Normalize("_dnsweaver." + host) && r.target == Own.MakeValue(id, map[])
  }

  ghost predicate HasData(s: Store, host: string) {
    exists r :: r in s && IsData(r.rtype) && Named(host, r)
  }

  /** A TXT record at the host's marker name whose value belongs to the ID. */
  ghost predicate OwnedIn(s: Store, host: string, id: string) {
    exists r :: r in s && r.rtype == TXT && Normalize(r.host) == Normalize("_dnsweaver." + host)
             && Own.MatchesOwnership(r.target, id)
  }

  /** Whether a sweep of the host at the instance takes the record away, where the snapshot shows the store `s`. */
  ghost predicate Goes(cfg: Config, inst: Instance, host: string, s: Store, r: Record) {
    match inst.mode
    case Additive => false
    case Authoritative =>
      || (Named(host, r) && r.rtype in inst.types && r.rtype != TXT && (IsData(r.rtype) || !HasData(s, host)))
      || (cfg.tracking && BareMarker(cfg.instanceID, host, r))
    case Managed =>
      if !cfg.tracking then Named(host, r) && IsData(r.rtype)
      else if inst.ownershipTXT then
        && OwnedIn(s, host, cfg.instanceID)
        && ((Named(host, r) && IsData(r.rtype)) || BareMarker(cfg.instanceID, host, r))
      else Named(host, r) && r.rtype == inst.rtype && r.target == inst.target
  }

  // ---- The deletions of one sweep ----

  function Removed(cfg: Config, inst: Instance, host: string, x: Record): Record {
    if inst.mode.Managed? && cfg.tracking && !inst.ownershipTXT then Record(host, x.rtype, x.target, 0, None)
    else Record(host, x.rtype, x.target, 0, if x.rtype.SRV? then x.srv else None)
  }

  lemma RemovedBy(cfg: Config, inst: Instance, host: string, x: Record)
    ensures RemovalCall(cfg, inst, host, x) == Call(inst.identity, Delete(Removed(cfg, inst, host, x)))
  {
  }

  ghost predicate Hit(cfg: Config, inst: Instance, host: string, records: Store, r: Record) {
    exists x :: x in records && Removable(cfg, inst, x) && SameKey(r, Removed(cfg, inst, host, x))
  }

  lemma {:induction false} RemovalTakes(cfg: Config, env: Env, inst: Instance, host: string, records: Store, w: World)
    requires Quiet(env)
    ensures var s, t := At(w.stores, inst.identity),
                        At(PerformAll(w, env, RemovalCalls(cfg, inst, host, records)).stores, inst.identity);
            forall r :: r in t <==> r in s && !Hit(cfg, inst, host, records, r)
    decreases |records|
  {
    hide Removable;
    hide SameKey;
    hide Removed;
    hide RemovalCall;
    hide Perform;
    if records != [] {
      var n := |records| - 1;
      var x := records[n];
      var calls := RemovalCalls(cfg, inst, host, records[..n]);
      RemovalTakes(cfg, env, inst, host, records[..n], w);
      RemovedBy(cfg, inst, host, x);
      assert forall y :: y in records <==> y in records[..n] || y == x;
      if Removable(cfg, inst, x) {
        assert RemovalCalls(cfg, inst, host, records) == calls + [RemovalCall(cfg, inst, host, x)];
        PerformAllSnoc(w, env, calls, RemovalCall(cfg, inst, host, x));
        QuietAt(PerformAll(w, env, calls), env, RemovalCall(cfg, inst, host, x));
      } else {
        assert RemovalCalls(cfg, inst, host, records) == calls;
      }
      forall r ensures Hit(cfg, inst, host, records, r)
                  <==> Hit(cfg, inst, host, records[..n], r) || (Removable(cfg, inst, x) && SameKey(r, Removed(cfg, inst, host, x)))
      {
      }
    }
  }

  lemma UnmarkTakesBare(cfg: Config, env: Env, inst: Instance, host: string, w: World)
    requires Quiet(env)
    ensures var s, t := At(w.stores, inst.identity), At(Perform(w, env, UnmarkCall(cfg, inst, host)).stores, inst.identity);
            forall r :: r in t <==> r in s && !BareMarker(cfg.instanceID, host, r)
  {
    hide Own.MakeValue;
    hide Normalize;
    QuietAt(w, env, UnmarkCall(cfg, inst, host));
  }

  // ---- One sweep ----

  /** A record of the name that is not TXT, or a TXT record at its marker name. */
  predicate Beside(host: string, r: Record) {
    (Named(host, r) && r.rtype != TXT) || (r.rtype == TXT && Normalize(r.host) == Normalize("_dnsweaver." + host))
  }

  /** The store has no records beside the name that the snapshot does not show. */
  ghost predicate Within(host: string, s: Store, s0: Store) {
    forall r :: Beside(host, r) && r in s ==> r in s0
  }

  ghost predicate ShowsStore(snap: Snapshot, inst: Instance, s0: Store) {
    inst.name in snap && snap[inst.name] == Some(s0)
  }

  lemma OwnedShown(snap: Snapshot, inst: Instance, host: string, id: string, s0: Store)
    requires ShowsStore(snap, inst, s0)
    ensures Owned(snap, inst, host, id) <==> OwnedIn(s0, host, id)
  {
  }

  /** The records a sweep works on: the data the snapshot shows, or else what the store still has. */
  lemma FoundRecords(
    cfg: Config, env: Env, snap: Snapshot, inst: Instance, host: string, dataOnly: bool, s0: Store, w: World)
    requires Quiet(env) && ShowsStore(snap, inst, s0) && Normalize(host) == host
    ensures var (w1, records) := RecordsToClean(env, inst, host, snap, dataOnly, w);
            && (forall id :: At(w1.stores, id) == At(w.stores, id))
            && records.Some?
            && (if HasData(s0, host) then forall r :: r in records.value <==> r in s0 && Named(host, r) && IsData(r.rtype)
                else forall r :: r in records.value <==>
                       r in At(w.stores, inst.identity) && Named(host, r) && (dataOnly ==> IsData(r.rtype)))
  {
    hide Normalize;
    QuietListed(env, inst, w);
    var cached := DataAt(s0, host);
    if HasData(s0, host) {
      var r :| r in s0 && IsData(r.rtype) && Named(host, r);
      assert r in cached;
    } else if cached != [] {
      NonEmptyMember(cached);
      assert false;
    }
  }

  /** What was found and is removable covers what goes of the host's own records. */
  lemma HitsExactly(cfg: Config, inst: Instance, host: string, s: Store, s0: Store, records: Store, r: Record)
    requires Normalize(host) == host && Within(host, s, s0) && r in s
    requires !inst.mode.Additive? && !inst.rtype.SRV? && IsData(inst.rtype)
    requires NeedsMarker(cfg, inst) ==> OwnedIn(s0, host, cfg.instanceID)
    requires if HasData(s0, host) then forall x :: x in records <==> x in s0 && Named(host, x) && IsData(x.rtype)
             else forall x :: x in records <==> x in s && Named(host, x) && (DataOnly(cfg, inst) ==> IsData(x.rtype))
    ensures Hit(cfg, inst, host, records, r)
       <==> Goes(cfg, inst, host, s0, r) && Named(host, r) && !BareMarker(cfg.instanceID, host, r)
  {
    hide OwnedIn;
    hide Own.MakeValue;
    hide Normalize;
    MarkerElsewhere(host);
    if Hit(cfg, inst, host, records, r) {
      var x :| x in records && Removable(cfg, inst, x) && SameKey(r, Removed(cfg, inst, host, x));
      assert Named(host, r) && r.rtype == x.rtype && r.target == x.target;
      assert Goes(cfg, inst, host, s0, r);
    }
    if Goes(cfg, inst, host, s0, r) && Named(host, r) && !BareMarker(cfg.instanceID, host, r) {
      assert r in s0;
      assert r in records && Removable(cfg, inst, r);
      assert SameKey(r, Removed(cfg, inst, host, r));
    }
  }

  lemma MarkerElsewhere(host: string)
    requires Normalize(host) == host
    ensures Normalize("_dnsweaver." + host) != host
  {
    assert Marker(host) == "_dnsweaver." + host;
    if host != "" {
      NormalizeMarker(host);
    }
  }

  /**
   * One sweep without failures.  Of what the store has at or beside the host's name, exactly what its mode lets go
   * is gone; every record of another name stays.
   */
  lemma SweepLeavesExactly(
    cfg: Config, env: Env, snap: Snapshot, host: string, inst: Instance, s0: Store, w: World, r: Record)
    requires Quiet(env) && !cfg.dryRun && Normalize(host) == host && ShowsStore(snap, inst, s0)
    requires !inst.rtype.SRV? && IsData(inst.rtype)
    requires Within(host, At(w.stores, inst.identity), s0)
    ensures r in At(CleanOne(cfg, env, snap, host, inst, w).stores, inst.identity)
       <==> r in At(w.stores, inst.identity) && !Goes(cfg, inst, host, s0, r)
  {
    hide RecordsToClean;
    hide RemovalCalls;
    hide PerformAll;
    hide Hit;
    hide OwnedIn;
    hide BareMarker;
    hide HasData;
    hide UnmarkCall;
    hide Within;
    hide Owned;
    hide ShowsStore;
    hide Normalize;
    OwnedShown(snap, inst, host, cfg.instanceID, s0);
    if !inst.mode.Additive? && !(NeedsMarker(cfg, inst) && !OwnedIn(s0, host, cfg.instanceID)) {
      var s := At(w.stores, inst.identity);
      var (w1, records) := RecordsToClean(env, inst, host, snap, DataOnly(cfg, inst), w);
      FoundRecords(cfg, env, snap, inst, host, DataOnly(cfg, inst), s0, w);
      RemovalTakes(cfg, env, inst, host, records.value, w1);
      UnmarkTakesBare(cfg, env, inst, host, PerformAll(w1, env, RemovalCalls(cfg, inst, host, records.value)));
      if r in s { HitsExactly(cfg, inst, host, s, s0, records.value, r); }
      GoesSplit(cfg, inst, host, s0, r);
    }
  }

  /** What goes is of the host's name, or its bare marker where the mode deletes that. */
  lemma GoesSplit(cfg: Config, inst: Instance, host: string, s0: Store, r: Record)
    requires !cfg.dryRun && Normalize(host) == host && IsData(inst.rtype)
    requires !inst.mode.Additive? && (NeedsMarker(cfg, inst) ==> OwnedIn(s0, host, cfg.instanceID))
    ensures Goes(cfg, inst, host, s0, r)
       <==> || (Goes(cfg, inst, host, s0, r) && Named(host, r) && !BareMarker(cfg.instanceID, host, r))
            || (Unmarks(cfg, inst) && BareMarker(cfg.instanceID, host, r))
  {
    hide OwnedIn;
    hide Own.MakeValue;
    MarkerElsewhere(host);
  }

  // ---- All sweeps of a cycle ----

  /** Some sweep of the host at this backend takes the record away. */
  ghost predicate Gone(cfg: Config, sweeps: seq<Sweep>, host: string, id: Identity, s0: Store, r: Record) {
    exists s :: s in sweeps && s.host == host && s.inst.identity == id && Goes(cfg, s.inst, host, s0, r)
  }

  /** The instance's own type is one CreateInstance accepts, and the snapshot shows its store. */
  ghost predicate Sweepable(snap: Snapshot, s: Sweep, id: Identity, s0: Store) {
    && s.host != "" && Normalize(s.host) == s.host
    && !s.inst.rtype.SRV? && IsData(s.inst.rtype)
    && (s.inst.identity == id ==> ShowsStore(snap, s.inst, s0))
  }

  /** A sweep of another host, or at another backend, leaves the record. */
  lemma OtherSweepSpares(
    cfg: Config, env: Env, snap: Snapshot, s: Sweep, w: World, host: string, id: Identity, s0: Store, r: Record)
    requires Quiet(env) && Sweepable(snap, s, id, s0) && host != "" && Normalize(host) == host && Beside(host, r)
    requires s.host != host || s.inst.identity != id
    ensures r in At(CleanOne(cfg, env, snap, s.host, s.inst, w).stores, id) <==> r in At(w.stores, id)
  {
    hide CleanOne;
    hide SweepCall;
    hide Normalize;
    hide ShowsStore;
    var calls := CleanOneCalls(cfg, env, snap, s, w);
    assert Marker(host) == "_dnsweaver." + host;
    MarkerInjective(s.host, host);
    forall c, k | c in calls && c.id == id && k in Keys(c.op) ensures !SameKey(r, k) {
      SweepAt(cfg, s, c);
      SweepKey(cfg, s, c, k);
    }
    QuietFrame(w, env, calls, id, r);
  }

  lemma SweepAt(cfg: Config, s: Sweep, c: Call)
    requires SweepCall(cfg, s, c)
    ensures c.id == s.inst.identity
  {
  }

  lemma {:induction false} SweepsLeaveExactly(
    cfg: Config, env: Env, snap: Snapshot, sweeps: seq<Sweep>, w: World, host: string, id: Identity, s0: Store)
    requires Quiet(env) && !cfg.dryRun && host != "" && Normalize(host) == host
    requires forall s :: s in sweeps ==> Sweepable(snap, s, id, s0)
    requires forall r :: Beside(host, r) && r in At(w.stores, id) ==> r in s0
    ensures forall r :: Beside(host, r) ==>
              (r in At(CleanAll(cfg, env, snap, sweeps, w).stores, id)
               <==> r in At(w.stores, id) && !Gone(cfg, sweeps, host, id, s0, r))
    decreases |sweeps|
  {
    hide CleanOne;
    hide Goes;
    hide Beside;
    hide Normalize;
    hide Sweepable;
    if sweeps != [] {
      var n := |sweeps| - 1;
      var s, w1 := sweeps[n], CleanAll(cfg, env, snap, sweeps[..n], w);
      assert forall x :: x in sweeps <==> x in sweeps[..n] || x == s;
      SweepsLeaveExactly(cfg, env, snap, sweeps[..n], w, host, id, s0);
      forall r | Beside(host, r)
        ensures r in At(CleanAll(cfg, env, snap, sweeps, w).stores, id)
           <==> r in At(w.stores, id) && !Gone(cfg, sweeps, host, id, s0, r)
      {
        LastSweep(cfg, env, snap, s, w1, host, id, s0, r);
        assert Gone(cfg, sweeps, host, id, s0, r)
          <==> Gone(cfg, sweeps[..n], host, id, s0, r)
               || (s.host == host && s.inst.identity == id && Goes(cfg, s.inst, host, s0, r));
      }
    }
  }

  lemma LastSweep(
    cfg: Config, env: Env, snap: Snapshot, s: Sweep, w: World, host: string, id: Identity, s0: Store, r: Record)
    requires Quiet(env) && !cfg.dryRun && host != "" && Normalize(host) == host && Sweepable(snap, s, id, s0)
    requires forall x :: Beside(host, x) && x in At(w.stores, id) ==> x in s0
    requires Beside(host, r)
    ensures r in At(CleanOne(cfg, env, snap, s.host, s.inst, w).stores, id)
       <==> r in At(w.stores, id) && !(s.host == host && s.inst.identity == id && Goes(cfg, s.inst, host, s0, r))
  {
    hide CleanOne;
    hide Goes;
    hide Normalize;
    hide ShowsStore;
    if s.host == host && s.inst.identity == id {
      SweepLeavesExactly(cfg, env, snap, host, s.inst, s0, w, r);
    } else {
      OtherSweepSpares(cfg, env, snap, s, w, host, id, s0, r);
    }
  }

  // ---- A whole cycle ----

  lemma JobsElsewhere(
    cfg: Config, jobs: seq<Job>, found: Found, rec: map<string, Meta>, c: Call, host: string, k: Record)
    requires WellFound(found) && Apart(found.Keys, host) && JobsCall(cfg, jobs, rec, c) && k in Keys(c.op)
    requires forall job :: job in jobs ==> exists x :: x in found && job.host == found[x]
    ensures Normalize(k.host) != Normalize(host) && Normalize(k.host) != Normalize(Marker(host))
  {
    hide JobCall;
    hide Apart;
    hide Normalize;
    var job, meta :| job in jobs && job.writer.Some? && meta in MetasOf(job.host, rec)
      && JobCall(cfg, job.writer.value, WantedRecord(job.host, job.writer.value), meta, c);
    JobCallNames(cfg, job.writer.value, WantedRecord(job.host, job.writer.value), meta, c, k);
    ApartKey(found.Keys, job.host.name, host, k);
  }

  /** The jobs of a cycle leave what is beside a host that is apart from the discovered ones. */
  lemma JobsSpare(
    cfg: Config, env: Env, reg: Registry, found: Found, o: Orders, proc: Proc, w: World, host: string, id: Identity, r: Record)
    requires Quiet(env) && ValidRegistry(reg) && WellFound(found) && OrdersFit(o, proc, found)
    requires Apart(found.Keys, host) && Normalize(host) == host && Beside(host, r)
    ensures r in At(AfterEnsure(cfg, env, reg, found, o.hosts, proc, w).0.w.stores, id) <==> r in At(w.stores, id)
  {
    hide EnsureJobs;
    hide JobsCall;
    hide Apart;
    hide Normalize;
    hide WellFound;
    var (w1, snap) := TakeSnapshot(env, reg, w);
    var jobs := JobsFor(reg, found, o.hosts);
    var calls := EnsureJobsCalls(cfg, env, snap, jobs, Progress(w1, proc.rec, [], true));
    JobsForOrigin(reg, found, o.hosts);
    QuietSnapshot(env, reg, w);
    assert Marker(host) == "_dnsweaver." + host;
    forall c, k | c in calls && c.id == id && k in Keys(c.op) ensures !SameKey(r, k) {
      JobsElsewhere(cfg, jobs, found, proc.rec, c, host, k);
    }
    QuietFrame(w1, env, calls, id, r);
  }

  /** Some instance the orphan is swept at takes the record away. */
  ghost predicate SweptAway(
    cfg: Config, reg: Registry, mapping: map<string, seq<string>>, host: string, id: Identity, s: Store, r: Record)
  {
    exists inst :: inst in OrphanProviders(reg, mapping, host) && inst.identity == id && Goes(cfg, inst, host, s, r)
  }

  /**
   * What a cycle without failures leaves of a host that is gone.  Of its records that are not TXT, and of the TXT
   * records at its marker name, exactly those go that some instance it is swept at lets go, and only if cleanup
   * is on and at most half of the known hosts, or just one, are gone.
   */
  lemma CleanupLeavesExactly(
    cfg: Config, env: Env, reg: Registry, found: Found, o: Orders, proc: Proc, w: World, host: string, id: Identity, r: Record)
    requires Quiet(env) && Regular(cfg, reg, found, o, proc) && Survivable(reg, found, w.stores)
    requires host in proc.known && host !in found && Apart(found.Keys, host) && Beside(host, r)
    ensures r in At(Cycle(cfg, env, reg, found, o, proc, w).w.stores, id)
       <==> && r in At(w.stores, id)
            && !(&& cfg.cleanup
                 && (2 * |proc.known - found.Keys| <= |proc.known| || |proc.known - found.Keys| <= 1)
                 && SweptAway(cfg, reg, proc.mapping, host, id, At(w.stores, id), r))
  {
    hide AfterEnsure;
    hide CleanAll;
    hide Apart;
    hide Normalize;
    hide Survivable;
    hide WellFound;
    hide Goes;
    hide Beside;
    hide Tripped;
    hide OrphanProviders;
    hide SweepsFor;
    BreakerExactly(proc.known, found);
    QuietOutlives(cfg, env, reg, found, o, proc, w);
    CycleSweeps(cfg, env, reg, found, o, proc, w);
    var (st, snap) := AfterEnsure(cfg, env, reg, found, o.hosts, proc, w);
    forall x | Beside(host, x) ensures x in At(st.w.stores, id) <==> x in At(w.stores, id) {
      JobsSpare(cfg, env, reg, found, o, proc, w, host, id, x);
    }
    if cfg.cleanup && !Tripped(proc.known, found) {
      var sweeps := SweepsFor(reg, proc.mapping, o.orphans);
      CycleSweepable(cfg, env, reg, found, o, proc, w, id);
      SweepsLeaveExactly(cfg, env, snap, sweeps, st.w, host, id, At(w.stores, id));
      GoneIsSwept(cfg, reg, proc.mapping, o.orphans, host, id, At(w.stores, id), r);
    }
  }

  lemma GoneIsSwept(
    cfg: Config, reg: Registry, mapping: map<string, seq<string>>, order: seq<string>, host: string, id: Identity, s0: Store,
    r: Record)
    requires host in order
    ensures Gone(cfg, SweepsFor(reg, mapping, order), host, id, s0, r) <==> SweptAway(cfg, reg, mapping, host, id, s0, r)
  {
    hide SweepsFor;
    hide OrphanProviders;
    hide Goes;
    forall inst ensures Sweep(host, inst) in SweepsFor(reg, mapping, order) <==> inst in OrphanProviders(reg, mapping, host) {
      SweepsForExactly(reg, mapping, order, Sweep(host, inst));
    }
    if Gone(cfg, SweepsFor(reg, mapping, order), host, id, s0, r) {
      var s :| s in SweepsFor(reg, mapping, order) && s.host == host && s.inst.identity == id && Goes(cfg, s.inst, host, s0, r);
      assert s == Sweep(host, s.inst);
    }
    if SweptAway(cfg, reg, mapping, host, id, s0, r) {
      var inst :| inst in OrphanProviders(reg, mapping, host) && inst.identity == id && Goes(cfg, inst, host, s0, r);
      assert Sweep(host, inst) in SweepsFor(reg, mapping, order);
    }
  }

  lemma CycleSweepable(cfg: Config, env: Env, reg: Registry, found: Found, o: Orders, proc: Proc, w: World, id: Identity)
    requires Quiet(env) && Regular(cfg, reg, found, o, proc)
    ensures var snap := AfterEnsure(cfg, env, reg, found, o.hosts, proc, w).1;
            forall s :: s in SweepsFor(reg, proc.mapping, o.orphans) ==> Sweepable(snap, s, id, At(w.stores, id))
  {
    hide EnsureJobs;
    hide SweepsFor;
    SweepsForPart(reg, proc.mapping, o.orphans);
    QuietSnapshot(env, reg, w);
    forall s | s in SweepsFor(reg, proc.mapping, o.orphans)
      ensures Sweepable(AfterEnsure(cfg, env, reg, found, o.hosts, proc, w).1, s, id, At(w.stores, id))
    {
      var i :| 0 <= i < |reg| && reg[i] == s.inst;
    }
  }
}
