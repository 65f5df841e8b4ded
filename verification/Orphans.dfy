/** What orphan cleanup may delete, how much of it, what a dry run does, and what it leaves behind. */
module Orphans {
  import opened Wrappers
  import opened Names
  import opened Backend
  import opened Model
  import opened Traces
  import opened Settling
  import opened Isolation
  import opened Convergence
  import Glob
  import Own = Ownership

  // ---- Every deletion is justified ----

  /** Why the mode of `s.inst` lets a data record of an orphan go. */
  ghost predicate Grounds(cfg: Config, snap: Snapshot, s: Sweep, r: Record) {
    match s.inst.mode
    case Additive => false
    case Authoritative => r.rtype in s.inst.types && !r.rtype.TXT?
    case Managed =>
      if !cfg.tracking then IsData(r.rtype)
      else if s.inst.ownershipTXT then IsData(r.rtype) && Owned(snap, s.inst, s.host, cfg.instanceID)
      else r.rtype == s.inst.rtype && r.target == s.inst.target
  }

  /** The deletion of an orphan's record, or of its marker, with the grounds for it. */
  ghost predicate Justified(
    cfg: Config, reg: Registry, found: Found, known: set<string>, snap: Snapshot, s: Sweep, c: Call)
  {
    && s.inst in reg && s.host in known && s.host !in found
    && c.id == s.inst.identity
    && c.op.Delete?
    && (var r := c.op.record;
        || (Normalize(r.host) == Normalize(s.host) && Grounds(cfg, snap, s, r))
        || (r == MarkerRecord(s.inst, s.host, cfg.instanceID, map[]) && !s.inst.mode.Additive?
            && (NeedsMarker(cfg, s.inst) ==> Owned(snap, s.inst, s.host, cfg.instanceID))))
  }

  lemma AllowedIsJustified(
    cfg: Config, reg: Registry, found: Found, known: set<string>, snap: Snapshot, s: Sweep, c: Call)
    requires AllowedCall(cfg, snap, s, c) && !c.op.List?
    requires s.inst in reg && s.host in known && s.host !in found
    ensures Justified(cfg, reg, found, known, snap, s, c)
  {
  }

  ghost predicate CallsSince(w: World, w2: World, calls: seq<Call>) {
    && |w2.log| == |w.log| + |calls|
    && w2.log[..|w.log|] == w.log
    && forall i :: 0 <= i < |calls| ==> w2.log[|w.log| + i].call == calls[i]
  }

  lemma SweepsJustified(
    cfg: Config, env: Env, reg: Registry, found: Found, known: set<string>, snap: Snapshot, sweeps: seq<Sweep>, w: World)
    returns (calls: seq<Call>)
    requires forall s :: s in sweeps ==> s.inst in reg && s.host in known && s.host !in found
    ensures CallsSince(w, CleanAll(cfg, env, snap, sweeps, w), calls)
    ensures forall c :: c in calls && !c.op.List? ==> exists s :: Justified(cfg, reg, found, known, snap, s, c)
    ensures cfg.dryRun && cfg.tracking ==> forall c :: c in calls ==> c.op.List?
  {
    calls := CleanAllCalls(cfg, env, snap, sweeps, w);
    PerformAllLog(w, env, calls);
    forall c | c in calls && !c.op.List? ensures exists s :: Justified(cfg, reg, found, known, snap, s, c) {
      var s :| s in sweeps && AllowedCall(cfg, snap, s, c);
      AllowedIsJustified(cfg, reg, found, known, snap, s, c);
    }
    forall c | c in calls && cfg.dryRun && cfg.tracking ensures c.op.List? {
      var s :| s in sweeps && AllowedCall(cfg, snap, s, c);
    }
  }

  /**
   * Whatever fails and whoever interferes, every call the cleanup of a cycle makes is a listing or a
   * deletion of something of a host that was known before and is not discovered now, with grounds.
   */
  lemma CleanupJustified(cfg: Config, env: Env, reg: Registry, found: Found, o: Orders, proc: Proc, w: World)
    returns (calls: seq<Call>)
    requires cfg.enabled && OrdersFit(o, proc, found)
    ensures var (st, snap) := AfterEnsure(cfg, env, reg, found, o.hosts, proc, w);
            && CallsSince(st.w, Cycle(cfg, env, reg, found, o, proc, w).w, calls)
            && forall c :: c in calls && !c.op.List? ==>
                 exists s :: Justified(cfg, reg, found, proc.known, snap, s, c)
    ensures !cfg.cleanup || !Cycle(cfg, env, reg, found, o, proc, w).alive ==> calls == []
    ensures 2 * |proc.known - found.Keys| > |proc.known| && |proc.known - found.Keys| > 1 ==> calls == []
    ensures cfg.dryRun && cfg.tracking ==> forall c :: c in calls ==> c.op.List?
  {
    BreakerExactly(proc.known, found);
    hide AfterEnsure;
    hide CleanAll;
    hide Tripped;
    hide Justified;
    var (st, snap) := AfterEnsure(cfg, env, reg, found, o.hosts, proc, w);
    calls := [];
    if st.alive && cfg.cleanup && !Tripped(proc.known, found) {
      var sweeps := SweepsFor(reg, proc.mapping, o.orphans);
      SweepsForPart(reg, proc.mapping, o.orphans);
      calls := SweepsJustified(cfg, env, reg, found, proc.known, snap, sweeps, st.w);
    }
  }

  // ---- The circuit breaker ----

  /** The ratio above which cleanup is held back is one half, and one orphan never holds it back. */
  lemma BreakerExactly(known: set<string>, found: Found)
    ensures Tripped(known, found) <==> 2 * |known - found.Keys| > |known| && |known - found.Keys| > 1
  {
  }

  lemma JustifiedName(
    cfg: Config, reg: Registry, found: Found, known: set<string>, snap: Snapshot, s: Sweep, c: Call)
    requires Justified(cfg, reg, found, known, snap, s, c)
    ensures s.host in Orphans(known, found) && c.op.Delete?
    ensures Normalize(c.op.record.host) == Normalize(s.host) || Normalize(c.op.record.host) == Normalize(Marker(s.host))
  {
  }

  /**
   * After a completed cycle the known set is what it discovered, breaker or not, and its cleanup
   * deletes only at or beside the names of at most one host, or of half the hosts known before.
   */
  lemma BreakerBounds(cfg: Config, env: Env, reg: Registry, found: Found, o: Orders, proc: Proc, w: World)
    returns (hosts: set<string>, calls: seq<Call>)
    requires cfg.enabled && OrdersFit(o, proc, found)
    ensures Cycle(cfg, env, reg, found, o, proc, w).alive ==> Cycle(cfg, env, reg, found, o, proc, w).proc.known == found.Keys
    ensures hosts <= proc.known - found.Keys
    ensures |hosts| <= 1 || 2 * |hosts| <= |proc.known|
    ensures CallsSince(AfterEnsure(cfg, env, reg, found, o.hosts, proc, w).0.w,
                       Cycle(cfg, env, reg, found, o, proc, w).w, calls)
    ensures forall c :: c in calls && c.op.Delete? ==>
              exists h :: h in hosts && (Normalize(c.op.record.host) == Normalize(h)
                                      || Normalize(c.op.record.host) == Normalize(Marker(h)))
    ensures 2 * |proc.known - found.Keys| > |proc.known| && |proc.known - found.Keys| > 1 ==> calls == []
    ensures !Cycle(cfg, env, reg, found, o, proc, w).alive ==> calls == []
  {
    hide Justified;
    hide Normalize;
    hide Cycle;
    hide AfterEnsure;
    hide CallsSince;
    if Cycle(cfg, env, reg, found, o, proc, w).alive {
      CycleRemembers(cfg, env, reg, found, o, proc, w);
    }
    calls := CleanupJustified(cfg, env, reg, found, o, proc, w);
    BreakerExactly(proc.known, found);
    if !cfg.cleanup || Tripped(proc.known, found) {
      hosts := {};
    } else {
      hosts := Orphans(proc.known, found);
      var snap := AfterEnsure(cfg, env, reg, found, o.hosts, proc, w).1;
      forall c | c in calls && c.op.Delete?
        ensures exists h :: h in hosts && (Normalize(c.op.record.host) == Normalize(h)
                                        || Normalize(c.op.record.host) == Normalize(Marker(h)))
      {
        var s :| Justified(cfg, reg, found, proc.known, snap, s, c);
        JustifiedName(cfg, reg, found, proc.known, snap, s, c);
      }
    }
  }

  // ---- Which instances an orphan is swept at ----

  /** The sweeps of a cycle the process outlives; what a dying cycle does not come to is in CycleSweeps. */
  ghost function CleanupSweeps(cfg: Config, reg: Registry, found: Found, o: Orders, proc: Proc): seq<Sweep> {
    if cfg.cleanup && !Tripped(proc.known, found) then SweepsFor(reg, proc.mapping, o.orphans) else []
  }

  lemma CycleSweeps(cfg: Config, env: Env, reg: Registry, found: Found, o: Orders, proc: Proc, w: World)
    requires cfg.enabled && OrdersFit(o, proc, found)
    ensures var (st, snap) := AfterEnsure(cfg, env, reg, found, o.hosts, proc, w);
            var p := Cycle(cfg, env, reg, found, o, proc, w);
            p.w == if p.alive then CleanAll(cfg, env, snap, CleanupSweeps(cfg, reg, found, o, proc), st.w) else st.w
  {
    hide AfterEnsure;
    hide CleanAll;
    hide SweepsFor;
    hide Tripped;
    SweepNothing(cfg, env, AfterEnsure(cfg, env, reg, found, o.hosts, proc, w).1,
                 AfterEnsure(cfg, env, reg, found, o.hosts, proc, w).0.w);
  }

  lemma SweepNothing(cfg: Config, env: Env, snap: Snapshot, w: World)
    ensures CleanAll(cfg, env, snap, [], w) == w
  {
  }

  lemma {:induction false} SweepsForExactly(reg: Registry, mapping: map<string, seq<string>>, order: seq<string>, s: Sweep)
    ensures s in SweepsFor(reg, mapping, order) <==> s.host in order && s.inst in OrphanProviders(reg, mapping, s.host)
    decreases |order|
  {
    hide OrphanProviders;
    if order != [] {
      var n := |order| - 1;
      SweepsForExactly(reg, mapping, order[..n], s);
      assert s.host in order <==> s.host in order[..n] || s.host == order[n];
      var ps := OrphanProviders(reg, mapping, order[n]);
      if s.host == order[n] && s.inst in ps {
        var i :| 0 <= i < |ps| && ps[i] == s.inst;
        assert HostSweeps(reg, mapping, order[n])[i] == s;
      }
    }
  }

  lemma {:induction false} FindAllExactly(reg: Registry, names: seq<string>, inst: Instance)
    requires forall i, j :: 0 <= i < j < |reg| ==> reg[i].name != reg[j].name
    ensures inst in FindAll(reg, names) <==> inst in reg && inst.name in names
    decreases |names|
  {
    if names != [] {
      var n := |names| - 1;
      FindAllExactly(reg, names[..n], inst);
      assert inst.name in names <==> inst.name in names[..n] || inst.name == names[n];
      if inst in reg { FindUnique(reg, inst); }
    }
  }

  lemma {:induction false} MatchingDomainsExactly(reg: Registry, host: string, inst: Instance)
    ensures inst in MatchingDomains(reg, host) <==> inst in reg && Glob.Handles(inst.domains, host)
    decreases |reg|
  {
    hide Glob.Handles;
    if reg != [] {
      var n := |reg| - 1;
      MatchingDomainsExactly(reg[..n], host, inst);
      assert inst in reg <==> inst in reg[..n] || inst == reg[n];
    }
  }

  /** The action wrote something for exactly this spelling of a name. */
  predicate Wrote(a: Action, name: string) {
    a.provider != "" && !a.kind.Skipped? && a.host == name
  }

  lemma {:induction false} MappingExactly(actions: seq<Action>, name: string)
    ensures var m := MappingOf(actions);
            && (name in m <==> exists a :: a in actions && Wrote(a, name))
            && (name in m ==> m[name] != [] && forall p :: p in m[name] <==> exists a :: a in actions && Wrote(a, name) && a.provider == p)
    decreases |actions|
  {
    hide MappingOf;
    if actions == [] {
      NothingWritten();
    } else {
      var n := |actions| - 1;
      MappingExactly(actions[..n], name);
      MappingSnoc(actions, name);
      assert forall a :: a in actions <==> a in actions[..n] || a == actions[n];
    }
  }

  lemma NothingWritten()
    ensures MappingOf([]) == map[]
  {
  }

  lemma MappingSnoc(actions: seq<Action>, name: string)
    requires actions != []
    ensures var m0, m := MappingOf(actions[..|actions| - 1]), MappingOf(actions);
            var a := actions[|actions| - 1];
            if Wrote(a, name) then name in m && m[name] == AppendUnique(if name in m0 then m0[name] else [], a.provider)
            else (name in m <==> name in m0) && (name in m ==> m[name] == m0[name])
  {
  }

  /**
   * Where an orphan of the next cycle is swept: at the instances that wrote its canonical spelling in
   * the cycle before, or, when none wrote that, at every instance whose domains cover it; and only if
   * cleanup is on and the breaker does not trip.
   */
  lemma SweptExactlyWhen(
    cfg: Config, env: Env, reg: Registry, found: Found, o: Orders, proc: Proc, w: World,
    reg2: Registry, found2: Found, o2: Orders, k: string, inst: Instance)
    requires cfg.enabled && OrdersFit(o, proc, found) && ValidRegistry(reg2)
    requires Cycle(cfg, env, reg, found, o, proc, w).alive
    requires OrdersFit(o2, Cycle(cfg, env, reg, found, o, proc, w).proc, found2) && k in found && k !in found2
    ensures var actions := AfterEnsure(cfg, env, reg, found, o.hosts, proc, w).0.actions;
            var first := Cycle(cfg, env, reg, found, o, proc, w).proc;
            Sweep(k, inst) in CleanupSweeps(cfg, reg2, found2, o2, first) <==>
              && cfg.cleanup && (2 * |found.Keys - found2.Keys| <= |found.Keys| || |found.Keys - found2.Keys| <= 1)
              && inst in reg2
              && if exists a :: a in actions && Wrote(a, k)
                 then exists a :: a in actions && Wrote(a, k) && a.provider == inst.name
                 else Glob.Handles(inst.domains, k)
  {
    hide AfterEnsure;
    hide Glob.Handles;
    hide MappingOf;
    var actions := AfterEnsure(cfg, env, reg, found, o.hosts, proc, w).0.actions;
    var first := Cycle(cfg, env, reg, found, o, proc, w).proc;
    assert first.known == found.Keys && first.mapping == MappingOf(actions);
    assert k in Orphans(first.known, found2);
    BreakerExactly(found.Keys, found2);
    MappingExactly(actions, k);
    SweepsForExactly(reg2, first.mapping, o2.orphans, Sweep(k, inst));
    MatchingDomainsExactly(reg2, k, inst);
    if k in first.mapping { FindAllExactly(reg2, first.mapping[k], inst); }
  }

  lemma {:induction false} ActionHosts(cfg: Config, env: Env, snap: Snapshot, jobs: seq<Job>, st: Progress)
    requires st.actions == []
    ensures forall a :: a in EnsureJobs(cfg, env, snap, jobs, st).actions ==> exists job :: job in jobs && a.host == job.host.name
    decreases |jobs|
  {
    hide EnsureWrite;
    if jobs != [] {
      var n := |jobs| - 1;
      ActionHosts(cfg, env, snap, jobs[..n], st);
      assert forall job :: job in jobs <==> job in jobs[..n] || job == jobs[n];
    }
  }

  /** A host spelled otherwise than canonically is never remembered with its writers. */
  lemma SpellingIsRemembered(
    cfg: Config, env: Env, reg: Registry, found: Found, o: Orders, proc: Proc, w: World, k: string, a: Action)
    requires WellFound(found) && OrdersFit(o, proc, found) && k in found
    requires a in AfterEnsure(cfg, env, reg, found, o.hosts, proc, w).0.actions && Wrote(a, k)
    ensures found[k].name == k
  {
    hide EnsureJobs;
    var (w1, snap) := TakeSnapshot(env, reg, w);
    var jobs := JobsFor(reg, found, o.hosts);
    ActionHosts(cfg, env, snap, jobs, Progress(w1, proc.rec, [], true));
    var job :| job in jobs && a.host == job.host.name;
    JobsForOrigin(reg, found, o.hosts);
    var x :| x in o.hosts && job.host == found[x];
    ValidCanonical(found[k].name);
  }

  // ---- An orphan gets one chance ----

  /** The calls between the two worlds name neither the host nor its marker. */
  ghost predicate Silent(host: string, w: World, w2: World) {
    && |w.log| <= |w2.log|
    && w2.log[..|w.log|] == w.log
    && forall i :: |w.log| <= i < |w2.log| ==> Elsewhere(host, w2.log[i].call)
  }

  ghost predicate Elsewhere(host: string, c: Call) {
    forall k :: k in Keys(c.op) ==> Normalize(k.host) != Normalize(host) && Normalize(k.host) != Normalize(Marker(host))
  }

  lemma SilentBy(host: string, w: World, env: Env, calls: seq<Call>)
    requires forall c :: c in calls ==> Elsewhere(host, c)
    ensures Silent(host, w, PerformAll(w, env, calls))
  {
    hide Elsewhere;
    PerformAllLog(w, env, calls);
    var l := PerformAll(w, env, calls).log;
    forall i | |w.log| <= i < |l| ensures Elsewhere(host, l[i].call) {
      assert l[|w.log| + (i - |w.log|)].call == calls[i - |w.log|];
    }
  }

  lemma ApartKey(names: set<string>, x: string, host: string, k: Record)
    requires Apart(names, host) && (x in names || Normalize(x) in names)
    requires Normalize(k.host) == Normalize(x) || Normalize(k.host) == Normalize(Marker(x))
    ensures Normalize(k.host) != Normalize(host) && Normalize(k.host) != Normalize(Marker(host))
  {
  }

  lemma CycleSilent(cfg: Config, env: Env, reg: Registry, found: Found, o: Orders, proc: Proc, w: World, host: string)
    requires WellFound(found) && OrdersFit(o, proc, found) && Apart(found.Keys, host) && Apart(proc.known, host)
    ensures Silent(host, w, Cycle(cfg, env, reg, found, o, proc, w).w)
  {
    hide Cycle;
    hide PerformAll;
    hide Apart;
    hide Normalize;
    hide JobCall;
    hide SweepCall;
    var calls, jobs := CycleCalls(cfg, env, reg, found, o, proc, w);
    forall c, k | c in calls && k in Keys(c.op)
      ensures Normalize(k.host) != Normalize(host) && Normalize(k.host) != Normalize(Marker(host))
    {
      if JobsCall(cfg, jobs, proc.rec, c) {
        var job, meta :| job in jobs && job.writer.Some? && meta in MetasOf(job.host, proc.rec)
          && JobCall(cfg, job.writer.value, WantedRecord(job.host, job.writer.value), meta, c);
        JobCallNames(cfg, job.writer.value, WantedRecord(job.host, job.writer.value), meta, c, k);
        ApartKey(found.Keys, job.host.name, host, k);
      } else {
        var s: Sweep :| s.host in proc.known && s.host !in found && SweepCall(cfg, s, c);
        SweepCallNames(cfg, s, c, k);
        ApartKey(proc.known, s.host, host, k);
      }
    }
    SilentBy(host, w, env, calls);
  }

  lemma SweepCallNames(cfg: Config, s: Sweep, c: Call, k: Record)
    requires SweepCall(cfg, s, c) && k in Keys(c.op)
    ensures Normalize(k.host) == Normalize(s.host) || Normalize(k.host) == Normalize(Marker(s.host))
  {
    hide Normalize;
  }

  lemma RecoverSilent(cfg: Config, env: Env, reg: Registry, w: World, host: string)
    ensures Silent(host, w, Recover(cfg, env, reg, NEWBORN, w).w)
  {
    if cfg.cleanup && cfg.tracking {
      var calls := RecoverCalls(cfg, env, reg, NEWBORN.(rec := map[]), w);
      SilentBy(host, w, env, calls);
    }
  }

  /** In these turns no cycle discovers the host and no restart recovers it. */
  ghost predicate Away(env: Env, host: string, turns: seq<Turn>, p: Pass) {
    forall i :: 0 <= i < |turns| ==>
      match turns[i]
      case Restart(_, _) => Apart(Run(env, turns[..i + 1], p).proc.known, host)
      case Tick(_, _, found, _) => WellFound(found) && Apart(found.Keys, host)
  }

  lemma TakeSilent(env: Env, host: string, t: Turn, p: Pass)
    requires p.alive ==> Apart(p.proc.known, host)
    requires match t
             case Restart(_, _) => Apart(Take(env, t, p).proc.known, host)
             case Tick(_, _, found, _) => WellFound(found) && Apart(found.Keys, host)
    ensures var q := Take(env, t, p); Silent(host, p.w, q.w) && (q.alive ==> Apart(q.proc.known, host))
  {
    hide Apart;
    hide Silent;
    match t
    case Restart(cfg, reg) => RecoverSilent(cfg, env, reg, p.w, host);
    case Tick(cfg, reg, found, orders) =>
      SilentSelf(host, p.w);
      if p.alive && OrdersFit(orders, p.proc, found) {
        CycleSilent(cfg, env, reg, found, orders, p.proc, p.w, host);
      }
  }

  lemma SilentSelf(host: string, w: World)
    ensures Silent(host, w, w)
  {
  }

  lemma SilentTwice(host: string, a: World, b: World, c: World)
    requires Silent(host, a, b) && Silent(host, b, c)
    ensures Silent(host, a, c)
  {
    hide Elsewhere;
    forall i | |a.log| <= i < |c.log| ensures Elsewhere(host, c.log[i].call) {
      if i < |b.log| { assert c.log[..|b.log|][i] == b.log[i]; }
    }
  }

  lemma {:induction false} RunSilent(env: Env, host: string, turns: seq<Turn>, p: Pass)
    requires p.alive ==> Apart(p.proc.known, host)
    requires Away(env, host, turns, p)
    ensures var q := Run(env, turns, p); Silent(host, p.w, q.w) && (q.alive ==> Apart(q.proc.known, host))
    decreases |turns|
  {
    hide Apart;
    hide Silent;
    hide Take;
    hide WellFound;
    if turns == [] {
      SilentSelf(host, p.w);
    } else {
      var n := |turns| - 1;
      forall i | 0 <= i < n ensures turns[..n][i] == turns[i] && turns[..n][..i + 1] == turns[..i + 1] { }
      RunSilent(env, host, turns[..n], p);
      assert turns[..n + 1] == turns;
      TakeSilent(env, host, turns[n], Run(env, turns[..n], p));
      SilentTwice(host, p.w, Run(env, turns[..n], p).w, Run(env, turns, p).w);
    }
  }

  /** A valid host that is not discovered collides with no name that is. */
  lemma ApartFromFound(found: Found, host: string)
    requires WellFound(found) && (ValidHost(host) || ValidService(host)) && Normalize(host) !in found
    ensures Apart(found.Keys, host)
  {
    hide ValidHost;
    hide ValidService;
    FirstLabels(host);
    forall x | x in found.Keys || Normalize(x) in found.Keys
      ensures Normalize(x) != Normalize(host) && Normalize(Marker(x)) != Normalize(Marker(host))
      ensures Normalize(x) != Normalize(Marker(host)) && Normalize(Marker(x)) != Normalize(host)
    {
      var k := if x in found then x else Normalize(x);
      var y := found[k].name;
      ValidCanonical(y);
      FirstLabels(y);
      assert Normalize(x) == k == Normalize(y);
      assert x != "" by { assert Normalize("") == ""; }
      MarkerInjective(x, host);
      MarkerInjective(x, y);
      ValidNeverMarker(y, host);
      ValidNeverMarker(host, y);
    }
  }

  /**
   * An orphan gets one chance.  A cycle sweeps it exactly when the process lives to do it, cleanup is on
   * and at most half of the known hosts, or just one, are gone; and whether it was spared, swept, or its listing or deletion failed, no
   * call of any later turn is about it, its name or its marker, until a cycle discovers it or a restart
   * recovers it.
   */
  lemma OrphansGetOneChance(
    cfg: Config, env: Env, reg: Registry, found: Found, o: Orders, proc: Proc, w: World, host: string, later: seq<Turn>)
    requires cfg.enabled && OrdersFit(o, proc, found) && host in proc.known && host !in found && Apart(found.Keys, host)
    requires Away(env, host, later, Cycle(cfg, env, reg, found, o, proc, w))
    ensures var (st, snap) := AfterEnsure(cfg, env, reg, found, o.hosts, proc, w);
            var p, made := Cycle(cfg, env, reg, found, o, proc, w), CleanupSweeps(cfg, reg, found, o, proc);
            && p.w == (if p.alive then CleanAll(cfg, env, snap, made, st.w) else st.w)
            && forall inst :: Sweep(host, inst) in made <==>
                 && cfg.cleanup
                 && (2 * |proc.known - found.Keys| <= |proc.known| || |proc.known - found.Keys| <= 1)
                 && inst in OrphanProviders(reg, proc.mapping, host)
    ensures var p := Cycle(cfg, env, reg, found, o, proc, w);
            var q := Run(env, later, p);
            (q.alive ==> host !in q.proc.known) && Silent(host, p.w, q.w)
  {
    hide Away;
    hide OrphanProviders;
    hide Cycle;
    hide AfterEnsure;
    hide CleanAll;
    hide Apart;
    hide Tripped;
    var p := Cycle(cfg, env, reg, found, o, proc, w);
    BreakerExactly(proc.known, found);
    CycleSweeps(cfg, env, reg, found, o, proc, w);
    forall inst {
      SweepsForExactly(reg, proc.mapping, o.orphans, Sweep(host, inst));
    }
    if p.alive { CycleRemembers(cfg, env, reg, found, o, proc, w); }
    RunSilent(env, host, later, p);
    if Run(env, later, p).alive { ApartNotIn(Run(env, later, p).proc.known, host); }
  }

  lemma ApartNotIn(names: set<string>, host: string)
    requires Apart(names, host)
    ensures host !in names
  {
  }

  // ---- Even if every call failed ----

  ghost predicate Refusing(env: Env) {
    (forall n :: env.outcome(n) == Refuse) && (forall n :: env.others(n) == [])
  }

  lemma {:induction false} RefusedCalls(w: World, env: Env, calls: seq<Call>)
    requires Refusing(env)
    ensures PerformAll(w, env, calls).stores == w.stores
    decreases |calls|
  {
    if calls != [] { RefusedCalls(w, env, calls[..|calls| - 1]); }
  }

  /** With every call refused, a cycle takes nothing away, and still forgets the orphan. */
  lemma RefusedCycleForgets(cfg: Config, env: Env, reg: Registry, found: Found, o: Orders, proc: Proc, w: World, host: string)
    requires cfg.enabled && Refusing(env) && OrdersFit(o, proc, found) && host in Orphans(proc.known, found)
    ensures var p := Cycle(cfg, env, reg, found, o, proc, w);
            p.alive && p.w.stores == w.stores && host !in p.proc.known
  {
    hide PerformAll;
    hide EnsureJobs;
    hide CleanAll;
    hide TakeSnapshot;
    var calls, jobs := CycleCalls(cfg, env, reg, found, o, proc, w);
    RefusedCalls(w, env, calls);
    var (w1, snap) := TakeSnapshot(env, reg, w);
    RefusedSnapshot(env, reg, w);
    RefusedJobs(cfg, env, snap, JobsFor(reg, found, o.hosts), Progress(w1, proc.rec, [], true));
  }

  /** Every listing failed. */
  ghost predicate Blind(snap: Snapshot) {
    forall name :: name in snap ==> snap[name].None?
  }

  lemma RefusedList(env: Env, inst: Instance, w: World)
    requires Refusing(env)
    ensures Listed(env, inst, w).1.None?
  {
  }

  lemma {:induction false} RefusedSnapshot(env: Env, reg: Registry, w: World)
    requires Refusing(env)
    ensures Blind(TakeSnapshot(env, reg, w).1)
    decreases |reg|
  {
    hide Listed;
    if reg != [] {
      var n := |reg| - 1;
      RefusedSnapshot(env, reg[..n], w);
      var (w1, snap) := TakeSnapshot(env, reg[..n], w);
      RefusedList(env, reg[n], w1);
      assert Blind(snap) && TakeSnapshot(env, reg, w).1 == snap[reg[n].name := None];
    }
  }

  /** Nothing listed, nothing stale, and so nothing that could end the process. */
  lemma RefusedWrite(cfg: Config, env: Env, snap: Snapshot, h: Hostname, inst: Instance, meta: Meta, w: World)
    requires Refusing(env) && Blind(snap)
    ensures !EnsureWrite(cfg, env, snap, h, inst, meta, w).kind.Panicked?
  {
    hide Listed;
    hide CarryOut;
    RefusedList(env, inst, w);
  }

  lemma {:induction false} RefusedJobs(cfg: Config, env: Env, snap: Snapshot, jobs: seq<Job>, st: Progress)
    requires Refusing(env) && st.alive && Blind(snap)
    ensures EnsureJobs(cfg, env, snap, jobs, st).alive
    decreases |jobs|
  {
    hide EnsureWrite;
    if jobs != [] {
      var n := |jobs| - 1;
      RefusedJobs(cfg, env, snap, jobs[..n], st);
      var st1 := EnsureJobs(cfg, env, snap, jobs[..n], st);
      if jobs[n].writer.Some? {
        RefusedWrite(cfg, env, snap, jobs[n].host, jobs[n].writer.value, WantedMeta(jobs[n].host, st1.rec), st1.w);
      }
    }
  }

  // ---- Dry runs ----

  ghost predicate ListsOnly(w: World, w2: World) {
    exists calls :: CallsSince(w, w2, calls) && forall c: Call :: c in calls ==> c.op.List?
  }

  /** A dry-run cycle never writes, whatever the state, the stores and the failures. */
  ghost predicate DryRunReads(cfg: Config, reg: Registry) {
    forall env, found, o, proc, w :: OrdersFit(o, proc, found) ==> ListsOnly(w, Cycle(cfg, env, reg, found, o, proc, w).w)
  }

  predicate HasManaged(reg: Registry) {
    exists i :: 0 <= i < |reg| && reg[i].mode.Managed?
  }

  lemma DryRunCleaning(
    cfg: Config, env: Env, reg: Registry, snap: Snapshot, mapping: map<string, seq<string>>, orphans: seq<string>, w: World)
    returns (calls: seq<Call>)
    requires cfg.dryRun && (cfg.tracking || !HasManaged(reg))
    ensures CleanAll(cfg, env, snap, SweepsFor(reg, mapping, orphans), w) == PerformAll(w, env, calls)
    ensures forall c :: c in calls ==> c.op.List?
  {
    var sweeps := SweepsFor(reg, mapping, orphans);
    SweepsForPart(reg, mapping, orphans);
    calls := CleanAllCalls(cfg, env, snap, sweeps, w);
    forall c | c in calls ensures c.op.List? {
      var s :| s in sweeps && AllowedCall(cfg, snap, s, c);
      var i :| 0 <= i < |reg| && reg[i] == s.inst;
    }
  }

  lemma DryRunListsOnly(cfg: Config, env: Env, reg: Registry, found: Found, o: Orders, proc: Proc, w: World)
    requires cfg.dryRun && OrdersFit(o, proc, found)
    requires !cfg.enabled || !cfg.cleanup || cfg.tracking || !HasManaged(reg)
    ensures ListsOnly(w, Cycle(cfg, env, reg, found, o, proc, w).w)
  {
    hide Cycle;
    hide TakeSnapshot;
    hide SweepsFor;
    hide CleanAll;
    hide PerformAll;
    hide Tripped;
    hide HasManaged;
    hide ListsOnly;
    if !cfg.enabled {
      DisabledCycle(cfg, env, reg, found, o, proc, w);
      ListsBy(w, env, []);
    } else {
      var (w1, snap) := TakeSnapshot(env, reg, w);
      var calls := SnapshotCalls(env, reg, w);
      DryRunCycle(cfg, env, reg, found, o, proc, w);
      if cfg.cleanup && !Tripped(proc.known, found) {
        var clean := DryRunCleaning(cfg, env, reg, snap, proc.mapping, o.orphans, w1);
        PerformAllAppend(w, env, calls, clean);
        calls := calls + clean;
      }
      ListsBy(w, env, calls);
    }
  }

  lemma ListsBy(w: World, env: Env, calls: seq<Call>)
    requires forall c :: c in calls ==> c.op.List?
    ensures ListsOnly(w, PerformAll(w, env, calls))
    ensures PerformAll(w, env, []) == w
  {
    PerformAllLog(w, env, calls);
    assert CallsSince(w, PerformAll(w, env, calls), calls);
  }

  lemma DisabledCycle(cfg: Config, env: Env, reg: Registry, found: Found, o: Orders, proc: Proc, w: World)
    requires !cfg.enabled && OrdersFit(o, proc, found)
    ensures Cycle(cfg, env, reg, found, o, proc, w).w == w
  {
  }

  /** A dry-run cycle is its snapshot and its cleanup. */
  lemma DryRunCycle(cfg: Config, env: Env, reg: Registry, found: Found, o: Orders, proc: Proc, w: World)
    requires cfg.enabled && cfg.dryRun && OrdersFit(o, proc, found)
    ensures var (w1, snap) := TakeSnapshot(env, reg, w);
            Cycle(cfg, env, reg, found, o, proc, w).w ==
            if cfg.cleanup && !Tripped(proc.known, found)
            then CleanAll(cfg, env, snap, SweepsFor(reg, proc.mapping, o.orphans), w1) else w1
  {
    hide EnsureJobs;
    hide JobsFor;
    hide CleanAll;
    hide TakeSnapshot;
    hide SweepsFor;
    var (w1, snap) := TakeSnapshot(env, reg, w);
    DryRunEnsures(cfg, env, snap, JobsFor(reg, found, o.hosts), Progress(w1, proc.rec, [], true));
  }

  /** In a dry run no job touches the world or ends the process. */
  lemma {:induction false} DryRunEnsures(cfg: Config, env: Env, snap: Snapshot, jobs: seq<Job>, st: Progress)
    requires cfg.dryRun && st.alive
    ensures EnsureJobs(cfg, env, snap, jobs, st).w == st.w && EnsureJobs(cfg, env, snap, jobs, st).alive
    decreases |jobs|
  {
    if jobs != [] { DryRunEnsures(cfg, env, snap, jobs[..|jobs| - 1], st); }
  }

  /** The state in which a dry run deletes: one orphan that a managed instance wrote. */
  ghost function LoneOrphan(inst: Instance): Proc {
    Proc({"x"}, map["x" := [inst.name]], map[])
  }

  ghost function LoneWorld(inst: Instance): World {
    World(map[inst.identity := [LoneRecord()]], [])
  }

  function LoneRecord(): Record {
    Record("x", A, "192.0.2.1", 300, None)
  }

  function Nothing(): Env {
    Env(n => Succeed, n => [])
  }

  const LONE := Orders([], ["x"])

  lemma NormalizeX()
    ensures Normalize("x") == "x"
  {
  }

  lemma LoneSweep(reg: Registry, inst: Instance)
    requires ValidRegistry(reg) && inst in reg
    ensures SweepsFor(reg, LoneOrphan(inst).mapping, ["x"]) == [Sweep("x", inst)]
  {
    FindUnique(reg, inst);
    assert ["x"][..0] == [] && [inst.name][..0] == [];
    assert FindAll(reg, [inst.name]) == [inst];
    assert HostSweeps(reg, LoneOrphan(inst).mapping, "x") == [Sweep("x", inst)];
  }

  lemma {:induction false} FindUnique(reg: Registry, inst: Instance)
    requires forall i, j :: 0 <= i < j < |reg| ==> reg[i].name != reg[j].name
    requires inst in reg
    ensures Find(reg, inst.name) == Some(inst)
  {
  }

  lemma LoneClean(cfg: Config, env: Env, snap: Snapshot, inst: Instance, w: World)
    requires cfg.dryRun && !cfg.tracking && inst.mode.Managed?
    requires inst.name in snap && snap[inst.name] == Some([LoneRecord()])
    ensures CleanOne(cfg, env, snap, "x", inst, w) == Perform(w, env, DeleteByTarget(inst, "x", LoneRecord()))
  {
    hide Perform;
    hide Listed;
    hide Normalize;
    NormalizeX();
    var s := [LoneRecord()];
    assert s[..0] == [] && DataAt(s[..0], "x") == [];
    assert DataAt(s, "x") == s;
    var c := DeleteByTarget(inst, "x", LoneRecord());
    assert RemovalCalls(cfg, inst, "x", s[..0]) == [];
    assert RemovalCalls(cfg, inst, "x", s) == [c];
    PerformAllOne(w, env, c);
  }

  lemma DryRunDeletes(cfg: Config, reg: Registry, inst: Instance)
    requires cfg.dryRun && cfg.enabled && cfg.cleanup && !cfg.tracking
    requires ValidRegistry(reg) && inst in reg && inst.mode.Managed?
    ensures OrdersFit(LONE, LoneOrphan(inst), map[])
    ensures !ListsOnly(LoneWorld(inst), Cycle(cfg, Nothing(), reg, map[], LONE, LoneOrphan(inst), LoneWorld(inst)).w)
  {
    var env, proc, w := Nothing(), LoneOrphan(inst), LoneWorld(inst);
    assert Orphans(proc.known, map[]) == {"x"};
    QuietSnapshot(env, reg, w);
    var (w1, snap) := TakeSnapshot(env, reg, w);
    LoneLog(env, reg, w);
    LoneCycle(cfg, env, reg, inst, w);
    LoneClean(cfg, env, snap, inst, w1);
    var c := DeleteByTarget(inst, "x", LoneRecord());
    NotListsOnly(w, Perform(w1, env, c), |w1.log|);
  }

  lemma LoneLog(env: Env, reg: Registry, w: World)
    ensures |w.log| <= |TakeSnapshot(env, reg, w).0.log|
  {
  }

  /** With nothing discovered and one orphan, the cycle is the snapshot and one cleaning. */
  lemma LoneCycle(cfg: Config, env: Env, reg: Registry, inst: Instance, w: World)
    requires cfg.enabled && cfg.cleanup && ValidRegistry(reg) && inst in reg
    requires OrdersFit(LONE, LoneOrphan(inst), map[])
    ensures var (w1, snap) := TakeSnapshot(env, reg, w);
            Cycle(cfg, env, reg, map[], LONE, LoneOrphan(inst), w).w == CleanOne(cfg, env, snap, "x", inst, w1)
  {
    hide CleanOne;
    hide SweepsFor;
    hide TakeSnapshot;
    var proc := LoneOrphan(inst);
    var (w1, snap) := TakeSnapshot(env, reg, w);
    LoneSweep(reg, inst);
    assert Orphans(proc.known, map[]) == {"x"};
    assert !Tripped(proc.known, map[]);
    assert AfterEnsure(cfg, env, reg, map[], [], proc, w).0.w == w1;
    OneSweep(cfg, env, snap, Sweep("x", inst), w1);
  }

  lemma OneSweep(cfg: Config, env: Env, snap: Snapshot, s: Sweep, w: World)
    ensures CleanAll(cfg, env, snap, [s], w) == CleanOne(cfg, env, snap, s.host, s.inst, w)
  {
  }

  lemma NotListsOnly(w: World, w2: World, i: nat)
    requires |w.log| <= i < |w2.log| && !w2.log[i].call.op.List?
    ensures !ListsOnly(w, w2)
  {
    forall calls | CallsSince(w, w2, calls) ensures !(forall x: Call :: x in calls ==> x.op.List?) {
      assert w2.log[|w.log| + (i - |w.log|)].call == calls[i - |w.log|];
    }
  }

  /**
   * A dry run writes nothing exactly when the process is disabled, does not clean up, tracks
   * ownership, or has no instance in managed mode.
   */
  lemma DryRunReadsExactlyWhen(cfg: Config, reg: Registry)
    requires cfg.dryRun && ValidRegistry(reg)
    ensures DryRunReads(cfg, reg) <==> !cfg.enabled || !cfg.cleanup || cfg.tracking || !HasManaged(reg)
  {
    if !cfg.enabled || !cfg.cleanup || cfg.tracking || !HasManaged(reg) {
      forall env, found, o, proc, w | OrdersFit(o, proc, found)
        ensures ListsOnly(w, Cycle(cfg, env, reg, found, o, proc, w).w)
      {
        DryRunListsOnly(cfg, env, reg, found, o, proc, w);
      }
    } else {
      var i :| 0 <= i < |reg| && reg[i].mode.Managed?;
      DryRunDeletes(cfg, reg, reg[i]);
    }
  }

  // ---- The marker a cleanup leaves behind ----

  /** Reading what is to be removed changes nothing and, without failures, gives data records. */
  lemma CleaningReads(cfg: Config, env: Env, snap: Snapshot, host: string, inst: Instance, w: World, m: Record)
    requires Quiet(env) && NeedsMarker(cfg, inst)
    ensures var (w1, records) := RecordsToClean(env, inst, host, snap, true, w);
            && (m in At(w1.stores, inst.identity) <==> m in At(w.stores, inst.identity))
            && records.Some? && forall r :: r in records.value ==> IsData(r.rtype)
  {
  }

  lemma RemovalSparesMarkers(cfg: Config, env: Env, inst: Instance, host: string, records: Store, w: World, m: Record)
    requires Quiet(env) && m.rtype.TXT? && forall r :: r in records ==> IsData(r.rtype)
    ensures m in At(PerformAll(w, env, RemovalCalls(cfg, inst, host, records)).stores, inst.identity)
       <==> m in At(w.stores, inst.identity)
  {
    QuietFrame(w, env, RemovalCalls(cfg, inst, host, records), inst.identity, m);
  }

  lemma UnmarkTakes(cfg: Config, env: Env, inst: Instance, host: string, w: World, m: Record)
    requires Quiet(env) && IsMarkerOf(m, host, cfg.instanceID)
    ensures m in At(Perform(w, env, UnmarkCall(cfg, inst, host)).stores, inst.identity)
       <==> m in At(w.stores, inst.identity) && m.target != Own.MakeValue(cfg.instanceID, map[])
  {
  }

  lemma ManagedClean(cfg: Config, env: Env, snap: Snapshot, host: string, inst: Instance, w: World)
    requires !cfg.dryRun && NeedsMarker(cfg, inst) && Owned(snap, inst, host, cfg.instanceID)
    requires RecordsToClean(env, inst, host, snap, true, w).1.Some?
    ensures var (w1, records) := RecordsToClean(env, inst, host, snap, true, w);
            CleanOne(cfg, env, snap, host, inst, w) ==
            Perform(PerformAll(w1, env, RemovalCalls(cfg, inst, host, records.value)), env, UnmarkCall(cfg, inst, host))
  {
  }

  /**
   * A managed cleanup without failures takes away exactly the own marker printed without metadata: a
   * marker that carries metadata stays, and will be recovered at the next restart.
   */
  lemma CleanupUnmarks(cfg: Config, env: Env, snap: Snapshot, host: string, inst: Instance, w: World, m: Record)
    requires Quiet(env) && !cfg.dryRun && NeedsMarker(cfg, inst) && Owned(snap, inst, host, cfg.instanceID)
    requires m in At(w.stores, inst.identity) && IsMarkerOf(m, host, cfg.instanceID)
    ensures m in At(CleanOne(cfg, env, snap, host, inst, w).stores, inst.identity)
       <==> m.target != Own.MakeValue(cfg.instanceID, map[])
  {
    hide RemovalCalls;
    hide CleanOne;
    hide PerformAll;
    CleaningReads(cfg, env, snap, host, inst, w, m);
    ManagedClean(cfg, env, snap, host, inst, w);
    var (w1, records) := RecordsToClean(env, inst, host, snap, true, w);
    RemovalSparesMarkers(cfg, env, inst, host, records.value, w1, m);
    UnmarkTakes(cfg, env, inst, host, PerformAll(w1, env, RemovalCalls(cfg, inst, host, records.value)), m);
  }

  /** Printed with any metadata at all, a marker's value differs from the one cleanup deletes. */
  lemma MetadataChangesValue(id: string, meta: Meta)
    ensures Own.MakeValue(id, meta) == Own.MakeValue(id, map[]) <==> meta.Keys <= Own.RESERVED
  {
  }
}
