/** What a fresh process recovers from the markers in the stores. */
module Restart {
  import opened Wrappers
  import opened Names
  import opened Backend
  import opened Model
  import opened Traces
  import opened Settling
  import opened Isolation
  import opened Convergence
  import opened Fixpoint
  import opened Requests
  import Own = Ownership

  /** Some instance's store holds a marker of `id`, spelled with the literal prefix, for the canonical name `n`. */
  ghost predicate MarkedSomewhere(id: string, reg: Registry, stores: map<Identity, Store>, n: string) {
    exists inst, r :: inst in reg && r in At(stores, inst.identity) && Recoverable(r, id)
                   && Normalize(MarkedHost(r.host)) == n
  }

  lemma RecoverFromExactly(s: Store, id: string, n: string)
    ensures (exists x :: x in RecoverFrom(s, id) && Normalize(x.host) == n)
       <==> (exists r :: r in s && Recoverable(r, id) && Normalize(MarkedHost(r.host)) == n)
  {
    forall r | r in s && Recoverable(r, id) && Normalize(MarkedHost(r.host)) == n
      ensures exists x :: x in RecoverFrom(s, id) && Normalize(x.host) == n
    {
      assert RecoveredOf(r) in RecoverFrom(s, id);
    }
  }

  lemma {:induction false} LearnExactly(proc: Proc, provider: string, hosts: seq<Recovered>, n: string)
    ensures n in Learn(proc, provider, hosts).known
       <==> n in proc.known || exists x :: x in hosts && Normalize(x.host) == n
    decreases |hosts|
  {
    if hosts != [] {
      var k := |hosts| - 1;
      LearnExactly(proc, provider, hosts[..k], n);
      assert forall x :: x in hosts <==> x in hosts[..k] || x == hosts[k];
    }
  }

  lemma {:induction false} RecoverAllExactly(cfg: Config, env: Env, reg: Registry, proc: Proc, w: World, n: string)
    requires Quiet(env)
    ensures SameStores(RecoverAll(cfg, env, reg, proc, w).w.stores, w.stores)
    ensures n in RecoverAll(cfg, env, reg, proc, w).proc.known
       <==> n in proc.known || MarkedSomewhere(cfg.instanceID, reg, w.stores, n)
    decreases |reg|
  {
    if reg != [] {
      var k := |reg| - 1;
      var id := cfg.instanceID;
      RecoverAllExactly(cfg, env, reg[..k], proc, w, n);
      var p := RecoverAll(cfg, env, reg[..k], proc, w);
      QuietAt(p.w, env, Call(reg[k].identity, List));
      QuietPerform(p.w, env, Call(reg[k].identity, List));
      var s := At(w.stores, reg[k].identity);
      RecoverFromExactly(s, id, n);
      LearnExactly(p.proc, reg[k].name, RecoverFrom(s, id), n);
      OneMoreStore(id, reg, w.stores, n);
    }
  }

  lemma OneMoreStore(id: string, reg: Registry, stores: map<Identity, Store>, n: string)
    requires reg != []
    ensures var k := |reg| - 1;
            MarkedSomewhere(id, reg, stores, n) <==>
              || MarkedSomewhere(id, reg[..k], stores, n)
              || exists r :: r in At(stores, reg[k].identity) && Recoverable(r, id) && Normalize(MarkedHost(r.host)) == n
  {
  }

  /**
   * Restart.  A fresh process that recovers without failures knows exactly the canonical names for
   * which some store holds a marker of its ID.
   */
  lemma RecoversExactly(cfg: Config, env: Env, reg: Registry, w: World, n: string)
    requires Quiet(env) && cfg.cleanup && cfg.tracking
    ensures n in Recover(cfg, env, reg, NEWBORN, w).proc.known <==> MarkedSomewhere(cfg.instanceID, reg, w.stores, n)
  {
    RecoverAllExactly(cfg, env, reg, NEWBORN.(rec := map[]), w, n);
  }

  /** What it then knows is canonical exactly when every such marker names a canonical host. */
  lemma RecoversCanonicalExactlyWhen(cfg: Config, env: Env, reg: Registry, w: World)
    requires Quiet(env) && cfg.cleanup && cfg.tracking
    ensures CanonicalNames(Recover(cfg, env, reg, NEWBORN, w).proc.known)
       <==> forall n :: MarkedSomewhere(cfg.instanceID, reg, w.stores, n) ==> n != "" && Normalize(n) == n
  {
    hide Recover;
    hide MarkedSomewhere;
    hide Normalize;
    forall n ensures n in Recover(cfg, env, reg, NEWBORN, w).proc.known <==> MarkedSomewhere(cfg.instanceID, reg, w.stores, n) {
      RecoversExactly(cfg, env, reg, w, n);
    }
  }

  /** Of the markers the snapshot honours, recovery sees those whose prefix is spelled in lower case. */
  lemma MarkerRecoverable(r: Record, host: string, id: string)
    requires host != "" && IsMarkerOf(r, host, id)
    ensures Recoverable(r, id) <==> IsMarkerName(r.host)
    ensures IsMarkerName(r.host) ==> Normalize(MarkedHost(r.host)) == Normalize(host)
  {
    if IsMarkerName(r.host) {
      MarkerRoundTrip("x", r.host);
      MarkerInjective(MarkedHost(r.host), host);
    }
  }

  // ---- What a cycle does to the markers of a discovered host ----

  predicate AtMarker(host: string, r: Record) {
    r.rtype.TXT? && Normalize(r.host) == Normalize(Marker(host))
  }

  /** The TXT records at the marker name stay, and new ones come only if `open`, spelled with the literal prefix. */
  ghost predicate MarkersGrow(host: string, open: bool, s: Store, t: Store) {
    && (forall r :: r in s && AtMarker(host, r) ==> r in t)
    && (forall r :: r in t && r !in s && AtMarker(host, r) ==> open && IsMarkerName(r.host))
  }

  lemma AddedIsLiteral(cfg: Config, h: Hostname, inst: Instance, meta: Meta, c: Call, host: string, r: Record)
    requires ValidName(h) && (ValidHost(host) || ValidService(host))
    requires JobCall(cfg, inst, WantedRecord(h, inst), meta, c) && Added(c.op) == Some(r) && AtMarker(host, r)
    ensures IsMarkerName(r.host) && cfg.tracking && Normalize(h.name) == Normalize(host)
  {
    JobCallAdds(cfg, inst, WantedRecord(h, inst), meta, c);
    ValidNeverMarker(h.name, host);
    FirstLabels(h.name);
    FirstLabels(host);
    MarkerRoundTrip(h.name, "");
    MarkerInjective(h.name, host);
  }

  lemma JobGrowsMarkers(
    cfg: Config, env: Env, snap: Snapshot, h: Hostname, inst: Instance, meta: Meta, w: World, host: string, id: Identity,
    open: bool)
    requires Quiet(env) && ValidName(h) && (ValidHost(host) || ValidService(host))
    requires !open && inst.identity == id && Normalize(h.name) == Normalize(host) ==> !cfg.tracking
    ensures MarkersGrow(host, open, At(w.stores, id), At(EnsureWrite(cfg, env, snap, h, inst, meta, w).w.stores, id))
  {
    hide EnsureWrite;
    hide ValidName;
    hide ValidHost;
    hide ValidService;
    hide PerformAll;
    var calls := EnsureWriteCalls(cfg, env, snap, h, inst, meta, w);
    var t := At(PerformAll(w, env, calls).stores, id);
    forall r | r in At(w.stores, id) && AtMarker(host, r) ensures r in t {
      TextStays(w, env, calls, id, r);
    }
    forall r | r in t && r !in At(w.stores, id) && AtMarker(host, r) ensures open && IsMarkerName(r.host) {
      QuietAdds(w, env, calls, id, r);
      var c :| c in calls && c.id == id && Added(c.op) == Some(r);
      AddedIsLiteral(cfg, h, inst, meta, c, host, r);
    }
  }

  // ---- Which writers leave a first marker ----

  /**
   * A writer leaves the host's first marker of this ID: there was none, nothing keeps the type out, no
   * update misses, and a record that is there already is adopted.
   */
  ghost predicate FirstMarks(cfg: Config, job: Job, stores0: map<Identity, Store>) {
    job.writer.Some? &&
    var s := At(stores0, job.writer.value.identity);
    && !Marked(s, job.host.name, cfg.instanceID)
    && !Clashes(WantOf(job), s) && !JobMisses(job, stores0)
    && (Shown(WantOf(job), s) ==> cfg.adopt)
  }

  /** A plan that comes to its marker leaves the host marked. */
  lemma MarkingPlan(cfg: Config, env: Env, inst: Instance, want: Record, meta: Meta, plan: Plan, w: World)
    requires Quiet(env) && cfg.tracking && Own.KeepsOwner(cfg.instanceID, meta)
    requires !plan.Clash? && (plan.Keep? ==> cfg.adopt) && CarryOut(cfg, env, inst, want, meta, false, plan, w).ok
    ensures Marked(At(CarryOut(cfg, env, inst, want, meta, false, plan, w).w.stores, inst.identity), want.host, cfg.instanceID)
  {
    hide Marked;
    hide EnsureMarker;
    hide UpdateRecord;
    match plan
    case Keep(stale) =>
      MarkerMarks(cfg, env, inst, want, meta, false, PerformAll(w, env, StaleCalls(inst, want.host, stale)));
    case Change(stale, prior) =>
      var w1 := PerformAll(w, env, StaleCalls(inst, want.host, stale));
      MarkerMarks(cfg, env, inst, want, meta, false, UpdateRecord(env, inst, prior, want, w1).0);
    case Fresh =>
      FreshMarks(cfg, env, inst, want, meta, false, w);
  }

  /** A plan that does not come to its marker goes on as without tracking. */
  lemma SilentPlan(cfg: Config, env: Env, inst: Instance, want: Record, meta: Meta, owned: bool, plan: Plan, w: World)
    requires owned || plan.Clash? || (plan.Keep? && !cfg.adopt)
          || (plan.Change? && !CarryOut(cfg, env, inst, want, meta, owned, plan, w).ok)
    ensures CarryOut(cfg, env, inst, want, meta, owned, plan, w).w
         == CarryOut(cfg.(tracking := false), env, inst, want, meta, owned, plan, w).w
  {
    hide PerformAll;
    hide Perform;
    hide UpdateRecord;
  }

  /** One job of the host itself: its own marker comes exactly if it marks first. */
  lemma JobMarkers(
    cfg: Config, env: Env, snap: Snapshot, job: Job, rec: map<string, Meta>, stores0: map<Identity, Store>, w: World)
    requires Quiet(env) && !cfg.dryRun && ValidName(job.host) && Printable(cfg, job) && PlainRec(cfg.instanceID, rec)
    requires job.writer.Some? && Mirrors(snap, stores0, job.writer.value) && !JobDoomed(job, stores0)
    requires JobWaiting(job, stores0, w.stores)
    ensures var id, meta := job.writer.value.identity, WantedMeta(job.host, rec);
            var t := At(EnsureWrite(cfg, env, snap, job.host, job.writer.value, meta, w).w.stores, id);
            && MarkersGrow(job.host.name, FirstMarks(cfg, job, stores0), At(w.stores, id), t)
            && (FirstMarks(cfg, job, stores0) ==> Marked(t, job.host.name, cfg.instanceID))
  {
    hide CarryOut;
    hide PlanFor;
    hide Marked;
    hide Mirrors;
    hide ValidHost;
    hide ValidService;
    hide JobDoomed;
    hide JobWaiting;
    hide MarkersGrow;
    hide EnsureWrite;
    hide Clashes;
    hide Shown;
    hide JobSettled;
    hide JobTidy;
    var inst, want, meta := job.writer.value, WantOf(job), WantedMeta(job.host, rec);
    var s, quiet := At(stores0, inst.identity), cfg.(tracking := false);
    var owned, plan := Marked(s, job.host.name, cfg.instanceID), PlanFor(want, DataAt(s, Normalize(job.host.name)));
    JobStep(cfg, env, snap, job, meta, stores0, w);
    JobStep(quiet, env, snap, job, meta, stores0, w);
    JobSettles(cfg, env, snap, job, rec, stores0, w);
    IdleExactly(want, s);
    if FirstMarks(cfg, job, stores0) {
      MarkingPlan(cfg, env, inst, want, meta, plan, w);
      JobGrowsMarkers(cfg, env, snap, job.host, inst, meta, w, job.host.name, inst.identity, true);
    } else {
      SilentPlan(cfg, env, inst, want, meta, owned, plan, w);
      JobGrowsMarkers(quiet, env, snap, job.host, inst, meta, w, job.host.name, inst.identity, false);
    }
  }

  // ---- All jobs of a cycle ----

  predicate ForHost(job: Job, h: Hostname, id: Identity) {
    job.writer.Some? && job.writer.value.identity == id && NameOf(job) == Normalize(h.name)
  }

  ghost predicate MarkedBy(cfg: Config, jobs: seq<Job>, n: nat, stores0: map<Identity, Store>, h: Hostname, id: Identity)
    requires n <= |jobs|
  {
    exists i :: 0 <= i < n && ForHost(jobs[i], h, id) && FirstMarks(cfg, jobs[i], stores0)
  }

  /** What a list of calls did to the markers of a host, and whether it left one. */
  ghost predicate MarkersLeft(host: string, id: string, marks: bool, s: Store, t: Store) {
    MarkersGrow(host, marks, s, t) && (marks ==> Marked(t, host, id))
  }

  lemma MarkersOn(host: string, id: string, m1: bool, m2: bool, s: Store, t: Store, u: Store)
    requires MarkersLeft(host, id, m1, s, t) && MarkersLeft(host, id, m2, t, u)
    ensures MarkersLeft(host, id, m1 || m2, s, u)
  {
    hide Normalize;
    if m1 && !m2 {
      var r :| r in t && IsMarkerOf(r, host, id);
      assert AtMarker(host, r);
    }
  }

  /** The jobs about the name of `h` are about `h` itself, and print safely. */
  ghost predicate OneHost(cfg: Config, jobs: seq<Job>, h: Hostname) {
    && (ValidHost(h.name) || ValidService(h.name))
    && forall i :: 0 <= i < |jobs| && NameOf(jobs[i]) == Normalize(h.name) ==> jobs[i].host == h && Printable(cfg, jobs[i])
  }

  lemma NextMarkers(
    cfg: Config, env: Env, snap: Snapshot, jobs: seq<Job>, hosts: set<string>, n: nat, stores0: map<Identity, Store>,
    st: Progress, h: Hostname, id: Identity)
    requires Quiet(env) && n < |jobs| && NoneDoomed(jobs, stores0)
    requires Ready(cfg, snap, jobs, hosts, stores0) && Halfway(cfg, jobs, hosts, n, stores0, st)
    requires OneHost(cfg, jobs, h) && Normalize(h.name) in hosts
    ensures MarkersLeft(h.name, cfg.instanceID, ForHost(jobs[n], h, id) && FirstMarks(cfg, jobs[n], stores0),
                        At(st.w.stores, id), At(EnsureJob(cfg, env, snap, jobs[n], st).w.stores, id))
  {
    hide EnsureWrite;
    hide FirstMarks;
    hide Marked;
    hide JobWaiting;
    hide JobDone;
    hide JobDoomed;
    hide ValidHost;
    hide ValidService;
    hide AtMarker;
    hide Mirrors;
    hide Unclashing;
    var job := jobs[n];
    if job.writer.Some? {
      var inst, meta := job.writer.value, WantedMeta(job.host, st.rec);
      if ForHost(job, h, id) {
        JobMarkers(cfg, env, snap, job, st.rec, stores0, st.w);
      } else {
        JobGrowsMarkers(cfg, env, snap, job.host, inst, meta, st.w, h.name, id, false);
      }
    }
  }

  lemma {:induction false} MarkersAfterJobs(
    cfg: Config, env: Env, snap: Snapshot, jobs: seq<Job>, hosts: set<string>, n: nat, stores0: map<Identity, Store>,
    st: Progress, h: Hostname, id: Identity)
    requires Quiet(env) && n <= |jobs| && NoneDoomed(jobs, stores0)
    requires Ready(cfg, snap, jobs, hosts, stores0) && PlainRec(cfg.instanceID, st.rec) && st.actions == [] && st.alive
    requires forall id :: At(st.w.stores, id) == At(stores0, id)
    requires OneHost(cfg, jobs, h) && Normalize(h.name) in hosts
    ensures MarkersLeft(h.name, cfg.instanceID, MarkedBy(cfg, jobs, n, stores0, h, id), At(st.w.stores, id),
                        At(EnsureJobs(cfg, env, snap, jobs[..n], st).w.stores, id))
    decreases n
  {
    hide EnsureJob;
    hide Ready;
    hide Halfway;
    hide FirstMarks;
    hide OneHost;
    hide Marked;
    hide MarkersLeft;
    hide NoneDoomed;
    hide PlainRec;
    if n == 0 {
      NoMarkersYet(h.name, cfg.instanceID, At(st.w.stores, id));
    } else {
      var st1 := EnsureJobs(cfg, env, snap, jobs[..n - 1], st);
      assert jobs[..n][..n - 1] == jobs[..n - 1];
      MarkersAfterJobs(cfg, env, snap, jobs, hosts, n - 1, stores0, st, h, id);
      AllJobs(cfg, env, snap, jobs, hosts, n - 1, stores0, st);
      NextMarkers(cfg, env, snap, jobs, hosts, n - 1, stores0, st1, h, id);
      MarkersOn(h.name, cfg.instanceID, MarkedBy(cfg, jobs, n - 1, stores0, h, id),
                ForHost(jobs[n - 1], h, id) && FirstMarks(cfg, jobs[n - 1], stores0), At(st.w.stores, id), At(st1.w.stores, id),
                At(EnsureJob(cfg, env, snap, jobs[n - 1], st1).w.stores, id));
    }
  }

  lemma NoMarkersYet(host: string, id: string, s: Store)
    ensures MarkersLeft(host, id, false, s, s)
  {
  }

  /** Cleanup of other hosts leaves the markers of a discovered one. */
  lemma SweepsSpareMarkers(
    cfg: Config, env: Env, reg: Registry, found: Found, o: Orders, proc: Proc, snap: Snapshot, w: World, k: string, inst: Instance)
    requires Quiet(env) && Regular(cfg, reg, found, o, proc) && k in found && inst in reg
    ensures MarkersGrow(found[k].name, false, At(w.stores, inst.identity),
                        At(CleanAll(cfg, env, snap, SweepsFor(reg, proc.mapping, o.orphans), w).stores, inst.identity))
  {
    var sweeps := SweepsFor(reg, proc.mapping, o.orphans);
    SweepsForPart(reg, proc.mapping, o.orphans);
    RegistryType(reg, inst);
    forall s | s in sweeps
      ensures s.host != "" && Normalize(s.host) != Normalize(found[k].name) && !s.inst.rtype.TXT?
    {
      RegistryType(reg, s.inst);
    }
    SweepsFrame(cfg, env, snap, sweeps, w, found[k], inst);
  }

  /** Some writer of the host at this backend leaves its first marker there. */
  ghost predicate WriterMarks(cfg: Config, reg: Registry, h: Hostname, stores0: map<Identity, Store>, id: Identity) {
    exists inst :: inst in Writers(reg, h) && inst.identity == id && FirstMarks(cfg, Job(h, Some(inst)), stores0)
  }

  lemma JobsOfOneHost(cfg: Config, reg: Registry, found: Found, order: seq<string>, k: string)
    requires WellFound(found) && k in found && (forall x :: x in order ==> x in found)
    requires Printable(cfg, Job(found[k], None))
    ensures OneHost(cfg, JobsFor(reg, found, order), found[k])
  {
    hide ValidHost;
    hide ValidService;
    JobsForOrigin(reg, found, order);
    var jobs := JobsFor(reg, found, order);
    forall i | 0 <= i < |jobs| && NameOf(jobs[i]) == Normalize(found[k].name)
      ensures jobs[i].host == found[k] && Printable(cfg, jobs[i])
    {
      assert jobs[i] in jobs;
      var x :| x in order && jobs[i].host == found[x];
    }
  }

  lemma MarkedByWriters(
    cfg: Config, reg: Registry, found: Found, order: seq<string>, k: string, stores0: map<Identity, Store>, id: Identity)
    requires WellFound(found) && k in found && Enumerates(order, found.Keys)
    ensures var jobs := JobsFor(reg, found, order);
            MarkedBy(cfg, jobs, |jobs|, stores0, found[k], id) <==> WriterMarks(cfg, reg, found[k], stores0, id)
  {
    hide FirstMarks;
    hide Writers;
    hide ValidName;
    hide WellFound;
    hide HostJobs;
    var jobs, h := JobsFor(reg, found, order), found[k];
    if MarkedBy(cfg, jobs, |jobs|, stores0, h, id) {
      var i :| 0 <= i < |jobs| && ForHost(jobs[i], h, id) && FirstMarks(cfg, jobs[i], stores0);
      JobsForMembers(reg, found, order);
      assert jobs[i] in jobs;
      var x :| x in order && jobs[i] in HostJobs(reg, found[x]);
      HostJobsShape(reg, found[x], jobs[i]);
      FoundName(found, x);
      FoundName(found, k);
      assert x == k && jobs[i] == Job(h, Some(jobs[i].writer.value));
    }
    if WriterMarks(cfg, reg, h, stores0, id) {
      var inst :| inst in Writers(reg, h) && inst.identity == id && FirstMarks(cfg, Job(h, Some(inst)), stores0);
      var i := JobOf(reg, found, order, k, inst);
      assert ForHost(jobs[i], h, id);
    }
  }

  /** The markers of a spread-out host over a whole cycle without failures. */
  lemma CycleMarkers(
    cfg: Config, env: Env, reg: Registry, found: Found, o: Orders, proc: Proc, w: World, k: string, inst: Instance)
    requires Quiet(env) && Regular(cfg, reg, found, o, proc) && Survivable(reg, found, w.stores)
    requires k in found && inst in reg && SpreadOut(reg, found[k]) && Printable(cfg, Job(found[k], None))
    ensures MarkersLeft(found[k].name, cfg.instanceID, WriterMarks(cfg, reg, found[k], w.stores, inst.identity),
                        At(w.stores, inst.identity), At(Cycle(cfg, env, reg, found, o, proc, w).w.stores, inst.identity))
  {
    hide EnsureJobs;
    hide CleanAll;
    hide Marked;
    hide MarkersGrow;
    hide JobsFor;
    hide TakeSnapshot;
    hide Ready;
    hide OneHost;
    hide Survivable;
    hide NoneDoomed;
    hide SpreadOut;
    hide WriterMarks;
    hide MarkedBy;
    hide Tripped;
    hide SweepsFor;
    var jobs, h, id := JobsFor(reg, found, o.hosts), found[k], inst.identity;
    var (w1, snap) := TakeSnapshot(env, reg, w);
    var st := Progress(w1, proc.rec, [], true);
    var w2 := EnsureJobs(cfg, env, snap, jobs, st).w;
    JobsReady(cfg, env, reg, found, o, proc, w);
    SurvivableJobs(reg, found, o.hosts, w.stores);
    JobsOfOneHost(cfg, reg, found, o.hosts, k);
    FoundName(found, k);
    assert jobs[..|jobs|] == jobs;
    MarkersAfterJobs(cfg, env, snap, jobs, SpreadNames(reg, found), |jobs|, w.stores, st, h, id);
    MarkedByWriters(cfg, reg, found, o.hosts, k, w.stores, id);
    SweepsSpareMarkers(cfg, env, reg, found, o, proc, snap, w2, k, inst);
    MarkersOn(h.name, cfg.instanceID, WriterMarks(cfg, reg, h, w.stores, id), false, At(w.stores, id), At(w2.stores, id),
              At(CleanAll(cfg, env, snap, SweepsFor(reg, proc.mapping, o.orphans), w2).stores, id));
  }

  // ---- Restart after a cycle ----

  /** The store holds a marker of `id` for the host whose prefix is spelled in lower case. */
  ghost predicate LiteralMarked(s: Store, host: string, id: string) {
    exists r :: r in s && IsMarkerOf(r, host, id) && IsMarkerName(r.host)
  }

  lemma LiteralAfter(cfg: Config, reg: Registry, h: Hostname, stores0: map<Identity, Store>, id: Identity, t: Store)
    requires MarkersLeft(h.name, cfg.instanceID, WriterMarks(cfg, reg, h, stores0, id), At(stores0, id), t)
    ensures LiteralMarked(t, h.name, cfg.instanceID)
       <==> LiteralMarked(At(stores0, id), h.name, cfg.instanceID) || WriterMarks(cfg, reg, h, stores0, id)
  {
    hide Normalize;
    hide Writers;
    hide JobMisses;
    hide Clashes;
    var s := At(stores0, id);
    if LiteralMarked(s, h.name, cfg.instanceID) {
      var r :| r in s && IsMarkerOf(r, h.name, cfg.instanceID) && IsMarkerName(r.host);
      assert AtMarker(h.name, r);
    }
    if WriterMarks(cfg, reg, h, stores0, id) {
      assert !Marked(s, h.name, cfg.instanceID);
      var r :| r in t && IsMarkerOf(r, h.name, cfg.instanceID);
      assert AtMarker(h.name, r) && r !in s;
    }
    if LiteralMarked(t, h.name, cfg.instanceID) {
      var r :| r in t && IsMarkerOf(r, h.name, cfg.instanceID) && IsMarkerName(r.host);
      assert AtMarker(h.name, r);
    }
  }

  lemma SomewhereIsLiteral(id: string, reg: Registry, stores: map<Identity, Store>, host: string)
    requires host != ""
    ensures MarkedSomewhere(id, reg, stores, Normalize(host))
       <==> exists inst :: inst in reg && LiteralMarked(At(stores, inst.identity), host, id)
  {
    forall r | Recoverable(r, id) ensures Normalize(MarkedHost(r.host)) == Normalize(host) <==> IsMarkerOf(r, host, id) {
      MarkerRoundTrip("x", r.host);
      MarkerInjective(MarkedHost(r.host), host);
    }
    forall inst | inst in reg && LiteralMarked(At(stores, inst.identity), host, id)
      ensures MarkedSomewhere(id, reg, stores, Normalize(host))
    {
      var r :| r in At(stores, inst.identity) && IsMarkerOf(r, host, id) && IsMarkerName(r.host);
      assert Recoverable(r, id);
    }
  }

  /** Before the cycle, some store holds a literal marker of this ID for the host. */
  ghost predicate MarkedBefore(cfg: Config, reg: Registry, h: Hostname, stores0: map<Identity, Store>) {
    exists inst :: inst in reg && LiteralMarked(At(stores0, inst.identity), h.name, cfg.instanceID)
  }

  ghost predicate SomeWriterMarks(cfg: Config, reg: Registry, h: Hostname, stores0: map<Identity, Store>) {
    exists inst :: inst in Writers(reg, h) && FirstMarks(cfg, Job(h, Some(inst)), stores0)
  }

  /**
   * Restart after a cycle.  A spread-out host that a cycle without failures discovered is known again to
   * a fresh process exactly when, before the cycle, some store held a literal marker of this ID for it,
   * or some writer was to leave its first one.
   */
  lemma KnownAgainExactlyWhen(
    cfg: Config, env: Env, env2: Env, reg: Registry, found: Found, o: Orders, proc: Proc, w: World, k: string)
    requires Quiet(env) && Quiet(env2) && Regular(cfg, reg, found, o, proc) && Survivable(reg, found, w.stores)
    requires k in found && SpreadOut(reg, found[k]) && Printable(cfg, Job(found[k], None)) && cfg.cleanup
    ensures k in Recover(cfg, env2, reg, NEWBORN, Cycle(cfg, env, reg, found, o, proc, w).w).proc.known
       <==> MarkedBefore(cfg, reg, found[k], w.stores) || SomeWriterMarks(cfg, reg, found[k], w.stores)
  {
    hide Cycle;
    hide Recover;
    hide Survivable;
    hide SpreadOut;
    hide LiteralMarked;
    hide MarkersLeft;
    hide MarkedSomewhere;
    hide FirstMarks;
    hide Writers;
    var h, w2 := found[k], Cycle(cfg, env, reg, found, o, proc, w).w;
    FirstLabels(h.name);
    RecoversExactly(cfg, env2, reg, w2, k);
    SomewhereIsLiteral(cfg.instanceID, reg, w2.stores, h.name);
    WritersPart(reg, h);
    forall inst | inst in reg
      ensures LiteralMarked(At(w2.stores, inst.identity), h.name, cfg.instanceID)
         <==> || LiteralMarked(At(w.stores, inst.identity), h.name, cfg.instanceID)
              || WriterMarks(cfg, reg, h, w.stores, inst.identity)
    {
      CycleMarkers(cfg, env, reg, found, o, proc, w, k, inst);
      LiteralAfter(cfg, reg, h, w.stores, inst.identity, At(w2.stores, inst.identity));
    }
  }

  /**
   * Whatever a cycle without failures created or updated, with metadata that prints safely, is known
   * again unless the writer's store held an own marker before, no store a literal one, and no other
   * writer was to leave a first one.
   */
  lemma CreatedIsRecovered(
    cfg: Config, env: Env, env2: Env, reg: Registry, found: Found, o: Orders, proc: Proc, w: World, k: string, i: nat)
    requires Quiet(env) && Quiet(env2) && Regular(cfg, reg, found, o, proc) && Survivable(reg, found, w.stores)
    requires k in found && SpreadOut(reg, found[k]) && Printable(cfg, Job(found[k], None)) && cfg.cleanup
    requires i < |JobsFor(reg, found, o.hosts)|
    requires var job := JobsFor(reg, found, o.hosts)[i]; job.writer.Some? && job.host == found[k]
    requires var actions := AfterEnsure(cfg, env, reg, found, o.hosts, proc, w).0.actions;
             i < |actions| && actions[i].ok && !actions[i].kind.Skipped?
    ensures var id := JobsFor(reg, found, o.hosts)[i].writer.value.identity;
            k in Recover(cfg, env2, reg, NEWBORN, Cycle(cfg, env, reg, found, o, proc, w).w).proc.known
            <==> || !Marked(At(w.stores, id), found[k].name, cfg.instanceID)
                 || MarkedBefore(cfg, reg, found[k], w.stores)
                 || SomeWriterMarks(cfg, reg, found[k], w.stores)
  {
    hide Cycle;
    hide Recover;
    hide Marked;
    hide AfterEnsure;
    hide MarkedBefore;
    hide Survivable;
    hide SpreadOut;
    hide JobMisses;
    hide JobSettled;
    hide JobTidy;
    hide Writers;
    hide Regular;
    CreatorMarks(cfg, env, reg, found, o, proc, w, k, i);
    KnownAgainExactlyWhen(cfg, env, env2, reg, found, o, proc, w, k);
  }

  /** A writer that created or updated leaves the first marker exactly if there was none. */
  lemma CreatorMarks(
    cfg: Config, env: Env, reg: Registry, found: Found, o: Orders, proc: Proc, w: World, k: string, i: nat)
    requires Quiet(env) && Regular(cfg, reg, found, o, proc) && Survivable(reg, found, w.stores)
    requires k in found && SpreadOut(reg, found[k]) && i < |JobsFor(reg, found, o.hosts)|
    requires var job := JobsFor(reg, found, o.hosts)[i]; job.writer.Some? && job.host == found[k]
    requires var actions := AfterEnsure(cfg, env, reg, found, o.hosts, proc, w).0.actions;
             i < |actions| && actions[i].ok && !actions[i].kind.Skipped?
    ensures var id := JobsFor(reg, found, o.hosts)[i].writer.value.identity;
            !Marked(At(w.stores, id), found[k].name, cfg.instanceID) ==> SomeWriterMarks(cfg, reg, found[k], w.stores)
  {
    hide Cycle;
    hide Marked;
    hide AfterEnsure;
    hide Survivable;
    hide SpreadOut;
    hide JobMisses;
    hide JobSettled;
    hide JobTidy;
    hide Writers;
    hide Clashes;
    hide Shown;
    var jobs := JobsFor(reg, found, o.hosts);
    var job := jobs[i];
    JobResult(cfg, env, reg, found, o, proc, w, i);
    JobsForMembers(reg, found, o.hosts);
    assert job in jobs;
    var x :| x in o.hosts && job in HostJobs(reg, found[x]);
    HostJobsShape(reg, found[x], job);
    assert job == Job(found[k], Some(job.writer.value));
  }

  lemma CapitalMarker(m: Record, host: string, id: string)
    requires m.rtype.TXT? && m.host == "_DNSWEAVER." + host && host != "" && Own.MatchesOwnership(m.target, id)
    ensures Marked([m], host, id) && !LiteralMarked([m], host, id)
  {
    assert m.host[1] != PREFIX[1];
    CapitalName(host);
    assert m in [m];
  }

  lemma CapitalName(host: string)
    requires host != ""
    ensures Normalize("_DNSWEAVER." + host) == Normalize(Marker(host))
  {
    assert Lower("_DNSWEAVER.") == PREFIX;
    NormalizeMarker(host);
  }

  /**
   * It does happen: with nothing but an own marker spelled in capitals in the only store, the cycle
   * creates the host's record and remembers the host, but a fresh process does not find it.
   */
  lemma CapitalMarkerLosesHost(
    cfg: Config, env: Env, env2: Env, inst: Instance, found: Found, o: Orders, proc: Proc, w: World, k: string, m: Record)
    requires Quiet(env) && Quiet(env2) && Regular(cfg, [inst], found, o, proc) && cfg.cleanup
    requires k in found && Printable(cfg, Job(found[k], None))
    requires inst in Writers([inst], found[k])
    requires At(w.stores, inst.identity) == [m]
    requires m.rtype.TXT? && m.host == "_DNSWEAVER." + found[k].name && Own.MatchesOwnership(m.target, cfg.instanceID)
    ensures var p := Cycle(cfg, env, [inst], found, o, proc, w);
            && p.alive && k in p.proc.known
            && Has(At(p.w.stores, inst.identity), WantedRecord(found[k], inst))
            && k !in Recover(cfg, env2, [inst], NEWBORN, p.w).proc.known
  {
    hide Cycle;
    hide Recover;
    hide Writers;
    hide LiteralMarked;
    hide Marked;
    hide Survivable;
    hide SpreadOut;
    hide PlainRec;
    hide CanonicalNames;
    hide OrdersFit;
    AloneSurvivable(inst, found, w.stores, m);
    AloneSpreadOut(inst, found[k]);
    CapitalMarkerIsLost(cfg, env, env2, inst, found, o, proc, w, k, m);
    MarkersAreNoData(WantedRecord(found[k], inst), m);
    ConvergesOnKey(cfg, env, [inst], found, o, proc, w, k, inst);
    QuietOutlives(cfg, env, [inst], found, o, proc, w);
    CycleRemembers(cfg, env, [inst], found, o, proc, w);
  }

  lemma CapitalMarkerIsLost(
    cfg: Config, env: Env, env2: Env, inst: Instance, found: Found, o: Orders, proc: Proc, w: World, k: string, m: Record)
    requires Quiet(env) && Quiet(env2) && Regular(cfg, [inst], found, o, proc) && cfg.cleanup
    requires k in found && Printable(cfg, Job(found[k], None)) && At(w.stores, inst.identity) == [m]
    requires m.rtype.TXT? && m.host == "_DNSWEAVER." + found[k].name && Own.MatchesOwnership(m.target, cfg.instanceID)
    ensures k !in Recover(cfg, env2, [inst], NEWBORN, Cycle(cfg, env, [inst], found, o, proc, w).w).proc.known
  {
    hide Cycle;
    hide Recover;
    hide Writers;
    hide LiteralMarked;
    hide Marked;
    hide Survivable;
    hide SpreadOut;
    hide OrdersFit;
    hide Clashes;
    hide JobMisses;
    hide Shown;
    FirstLabels(found[k].name);
    AloneSurvivable(inst, found, w.stores, m);
    AloneSpreadOut(inst, found[k]);
    CapitalMarker(m, found[k].name, cfg.instanceID);
    WritersPart([inst], found[k]);
    KnownAgainExactlyWhen(cfg, env, env2, [inst], found, o, proc, w, k);
  }

  lemma AloneSurvivable(inst: Instance, found: Found, stores: map<Identity, Store>, m: Record)
    requires At(stores, inst.identity) == [m] && m.rtype.TXT?
    ensures Survivable([inst], found, stores)
  {
    hide Writers;
    forall k, x | k in found && x in Writers([inst], found[k]) ensures !Doomed(WantedRecord(found[k], x), At(stores, x.identity)) {
      WritersPart([inst], found[k]);
    }
  }

  lemma AloneSpreadOut(inst: Instance, h: Hostname)
    ensures SpreadOut([inst], h)
  {
    hide Wants;
    hide WantedRecord;
    hide FirstPerSlot;
    hide SameSlot;
    assert [inst][..0] == [];
    assert |Matching([inst], h)| <= 1;
    OneIsFirst(Matching([inst], h));
    assert |Writers([inst], h)| <= 1;
  }

  lemma OneIsFirst(reg: Registry)
    requires |reg| <= 1
    ensures |FirstPerSlot(reg)| <= 1
  {
    if reg != [] { assert reg[..0] == []; }
  }

  /** A store with a TXT record alone keeps nothing out and makes no update miss. */
  lemma MarkersAreNoData(want: Record, m: Record)
    requires m.rtype.TXT?
    ensures !Clashes(want, [m]) && PlanFor(want, DataAt([m], Normalize(want.host))).Fresh?
  {
    NoDataFresh(want, [m]);
  }
}
