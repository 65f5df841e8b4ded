/** Convergence and rest, stated for whole cycles. */
module Fixpoint {
  import opened Wrappers
  import opened Names
  import opened Backend
  import opened Model
  import opened Traces
  import opened Settling
  import opened Isolation
  import opened Convergence
  import opened Requests

  // ---- Convergence ----

  /**
   * Convergence.  From any stores, a cycle in which no call fails leaves every discovered host that is
   * spread out with the type, target and SRV data asked for at every writer whose store held no data record
   * of another type, exactly unless a native updater is handed a record the cycle has just deleted as stale.
   */
  lemma Converges(
    cfg: Config, env: Env, reg: Registry, found: Found, o: Orders, proc: Proc, w: World, k: string, inst: Instance)
    requires Quiet(env) && Regular(cfg, reg, found, o, proc)
    requires Survivable(reg, found, w.stores)
    requires k in found && inst in Writers(reg, found[k]) && SpreadOut(reg, found[k])
    requires !Blocked(found[k], inst, At(w.stores, inst.identity))
    ensures var t := At(Cycle(cfg, env, reg, found, o, proc, w).w.stores, inst.identity);
            (exists r :: r in t && AsksFor(found[k], inst, r)) <==> !Misses(found[k], inst, At(w.stores, inst.identity))
  {
    hide Cycle;
    hide AsksFor;
    hide Misses;
    hide Survivable;
    hide Writers;
    hide SpreadOut;
    hide Clashes;
    hide Blocked;
    hide Has;
    hide WantedRecord;
    BlockedExactly(found[k], inst, At(w.stores, inst.identity));
    MissesExactly(found[k], inst, At(w.stores, inst.identity));
    ConvergesOnKey(cfg, env, reg, found, o, proc, w, k, inst);
    ServedExactly(found[k], inst, At(Cycle(cfg, env, reg, found, o, proc, w).w.stores, inst.identity));
    WantedName(found[k], inst);
  }

  lemma ConvergesOnKey(
    cfg: Config, env: Env, reg: Registry, found: Found, o: Orders, proc: Proc, w: World, k: string, inst: Instance)
    requires Quiet(env) && Regular(cfg, reg, found, o, proc)
    requires Survivable(reg, found, w.stores)
    requires k in found && inst in Writers(reg, found[k]) && SpreadOut(reg, found[k])
    requires !Clashes(WantedRecord(found[k], inst), At(w.stores, inst.identity))
    ensures Has(At(Cycle(cfg, env, reg, found, o, proc, w).w.stores, inst.identity), WantedRecord(found[k], inst))
       <==> !JobMisses(Job(found[k], Some(inst)), w.stores)
  {
    CycleSettles(cfg, env, reg, found, o, proc, w);
    var i := JobOf(reg, found, o.hosts, k, inst);
    var a := AfterEnsure(cfg, env, reg, found, o.hosts, proc, w).0.actions[i];
    assert JobDone(cfg, Job(found[k], Some(inst)), a, w.stores, Cycle(cfg, env, reg, found, o, proc, w).w.stores);
  }

  /** It does happen: a native updater, one SRV record with the wanted target and SRV data, but other ones. */
  lemma NativeUpdateCanMiss(h: Hostname, inst: Instance, stores: map<Identity, Store>, prior: Record)
    requires inst.nativeUpdate && WantedRecord(h, inst).rtype.SRV?
    requires At(stores, inst.identity) == [prior]
    requires prior == WantedRecord(h, inst).(srv := prior.srv) && prior.srv != WantedRecord(h, inst).srv && prior.srv.Some?
    ensures JobMisses(Job(h, Some(inst)), stores) && !JobDoomed(Job(h, Some(inst)), stores)
  {
    var existing := DataAt([prior], Normalize(h.name));
    assert WantedRecord(h, inst).host == h.name;
    assert [prior][..0] == [];
    assert DataAt([], Normalize(h.name)) == [];
    assert existing == [prior];
  }

  // ---- Rest ----

  /** No host is wanted twice in one type on one backend. */
  ghost predicate AllSpreadOut(reg: Registry, found: Found) {
    forall k :: k in found ==> SpreadOut(reg, found[k])
  }

  ghost predicate AllOk(actions: seq<Action>) {
    forall i :: 0 <= i < |actions| ==> actions[i].ok
  }

  ghost predicate SameStores(a: map<Identity, Store>, b: map<Identity, Store>) {
    forall id :: At(a, id) == At(b, id)
  }

  /** After its job, no recovered metadata is left for a host. */
  lemma {:induction false} RecoveredOnce(
    cfg: Config, env: Env, snap: Snapshot, jobs: seq<Job>, st: Progress, job: Job)
    requires job in jobs && job.writer.Some? && EnsureJobs(cfg, env, snap, jobs, st).alive
    ensures WantedMeta(job.host, EnsureJobs(cfg, env, snap, jobs, st).rec) == NextMeta(job.host)
    decreases |jobs|
  {
    hide EnsureWrite;
    hide WantedMeta;
    hide NextMeta;
    var n := |jobs| - 1;
    var st1 := EnsureJobs(cfg, env, snap, jobs[..n], st);
    assert st1.alive;
    if job == jobs[n] {
      MetaUsed(job.host, st1.rec);
    } else {
      assert job in jobs[..n];
      RecoveredOnce(cfg, env, snap, jobs[..n], st, job);
      MetaStays(job.host, jobs[n].host, st1.rec);
    }
  }

  lemma MetaUsed(h: Hostname, rec: map<string, Meta>)
    ensures WantedMeta(h, Unused(h, rec)) == NextMeta(h)
  {
  }

  lemma RestingJob(cfg: Config, env: Env, snap: Snapshot, job: Job, stores0: map<Identity, Store>, st: Progress)
    requires Quiet(env) && JobSettled(cfg, job, stores0)
    requires job.writer.Some? ==> Mirrors(snap, stores0, job.writer.value)
    requires job.writer.Some? ==> WantedMeta(job.host, st.rec) == NextMeta(job.host)
    requires SameStores(st.w.stores, stores0) && st.alive
    ensures var st2 := EnsureJob(cfg, env, snap, job, st);
            SameStores(st2.w.stores, stores0) && st2.alive
  {
    hide Settled;
    hide CarryOut;
    hide PlanFor;
    hide EnsureWrite;
    hide Doomed;
    if job.writer.Some? {
      var inst := job.writer.value;
      if cfg.dryRun {
        DryWrite(cfg, env, snap, job.host, inst, WantedMeta(job.host, st.rec), st.w);
      } else {
        SettledOutlives(cfg, inst, WantOf(job), NextMeta(job.host), At(stores0, inst.identity));
        JobStep(cfg, env, snap, job, NextMeta(job.host), stores0, st.w);
        SettledStays(cfg, env, inst, WantOf(job), NextMeta(job.host), st.w);
      }
    }
  }

  lemma DryWrite(cfg: Config, env: Env, snap: Snapshot, h: Hostname, inst: Instance, meta: Meta, w: World)
    requires cfg.dryRun
    ensures var step := EnsureWrite(cfg, env, snap, h, inst, meta, w); step.w == w && !step.kind.Panicked?
  {
  }

  /** What a settled or tidy store holds never ends the process. */
  lemma SettledOutlives(cfg: Config, inst: Instance, want: Record, meta: Meta, s: Store)
    requires Settled(cfg, inst, want, meta, s)
    ensures !Doomed(want, s)
  {
  }

  lemma TidyOutlives(want: Record, s: Store)
    requires Tidy(want, s)
    ensures !Doomed(want, s)
  {
  }

  lemma MetaStays(h: Hostname, other: Hostname, rec: map<string, Meta>)
    requires WantedMeta(h, rec) == NextMeta(h)
    ensures WantedMeta(h, Unused(other, rec)) == NextMeta(h)
  {
  }

  lemma {:induction false} RestingJobs(
    cfg: Config, env: Env, snap: Snapshot, jobs: seq<Job>, stores0: map<Identity, Store>, st: Progress)
    requires Quiet(env)
    requires forall job :: job in jobs ==> JobSettled(cfg, job, stores0)
    requires forall job :: job in jobs && job.writer.Some? ==> Mirrors(snap, stores0, job.writer.value)
    requires SameStores(st.w.stores, stores0) && st.alive
    ensures (forall job :: job in jobs && job.writer.Some? ==> WantedMeta(job.host, st.rec) == NextMeta(job.host))
        ==> SameStores(EnsureJobs(cfg, env, snap, jobs, st).w.stores, stores0) && EnsureJobs(cfg, env, snap, jobs, st).alive
    ensures forall h :: WantedMeta(h, st.rec) == NextMeta(h) ==>
              WantedMeta(h, EnsureJobs(cfg, env, snap, jobs, st).rec) == NextMeta(h)
    decreases |jobs|
  {
    hide EnsureWrite;
    hide JobSettled;
    hide Mirrors;
    hide WantedMeta;
    hide NextMeta;
    if jobs != [] {
      var n := |jobs| - 1;
      assert jobs[n] in jobs && forall job :: job in jobs[..n] ==> job in jobs;
      RestingJobs(cfg, env, snap, jobs[..n], stores0, st);
      var st1 := EnsureJobs(cfg, env, snap, jobs[..n], st);
      forall h | WantedMeta(h, st.rec) == NextMeta(h)
        ensures WantedMeta(h, EnsureJob(cfg, env, snap, jobs[n], st1).rec) == NextMeta(h)
      {
        MetaStays(h, jobs[n].host, st1.rec);
      }
      if forall job :: job in jobs && job.writer.Some? ==> WantedMeta(job.host, st.rec) == NextMeta(job.host) {
        RestingJob(cfg, env, snap, jobs[n], stores0, st1);
      }
    }
  }

  lemma SameJobs(reg: Registry, found: Found, a: seq<string>, b: seq<string>)
    requires Enumerates(a, found.Keys) && Enumerates(b, found.Keys)
    ensures forall job :: job in JobsFor(reg, found, a) <==> job in JobsFor(reg, found, b)
  {
    JobsForMembers(reg, found, a);
    JobsForMembers(reg, found, b);
  }

  lemma NoOrphans(reg: Registry, found: Found, o: Orders, proc: Proc)
    requires proc.known == found.Keys && OrdersFit(o, proc, found)
    ensures SweepsFor(reg, proc.mapping, o.orphans) == []
  {
    assert Orphans(proc.known, found) == {};
    if o.orphans != [] {
      NonEmptyMember(o.orphans);
      assert false;
    }
  }

  /**
   * Fixpoint.  Every host spread out, unchanged workloads: after a cycle without failures in which every
   * action succeeded, another cycle without failures, in whatever order it visits the hosts, leaves
   * every store exactly as it is.
   */
  lemma SecondCycleRests(
    cfg: Config, env: Env, env2: Env, reg: Registry, found: Found, o: Orders, o2: Orders, proc: Proc, w: World)
    requires Quiet(env) && Quiet(env2) && Regular(cfg, reg, found, o, proc) && AllSpreadOut(reg, found)
    requires Survivable(reg, found, w.stores)
    requires AllOk(AfterEnsure(cfg, env, reg, found, o.hosts, proc, w).0.actions)
    requires OrdersFit(o2, Cycle(cfg, env, reg, found, o, proc, w).proc, found)
    ensures var first := Cycle(cfg, env, reg, found, o, proc, w);
            var second := Cycle(cfg, env2, reg, found, o2, first.proc, first.w);
            first.alive && second.alive && SameStores(second.w.stores, first.w.stores)
  {
    hide JobSettled;
    hide WantedMeta;
    hide NextMeta;
    hide Cycle;
    var first := Cycle(cfg, env, reg, found, o, proc, w);
    CycleSettles(cfg, env, reg, found, o, proc, w);
    CycleRemembers(cfg, env, reg, found, o, proc, w);
    SameJobs(reg, found, o.hosts, o2.hosts);
    JobHosts(reg, found, o2.hosts);
    forall job | job in JobsFor(reg, found, o2.hosts)
      ensures JobSettled(cfg, job, first.w.stores)
      ensures job.writer.Some? ==>
                job.writer.value in reg && WantedMeta(job.host, first.proc.rec) == NextMeta(job.host)
    {
      JobAfterCycle(cfg, env, reg, found, o, proc, w, job);
    }
    SettledCycleRests(cfg, env2, reg, found, o2, first.proc, first.w);
  }

  /** A cycle without failures in which every job is settled already changes no store. */
  lemma SettledCycleRests(
    cfg: Config, env: Env, reg: Registry, found: Found, o: Orders, proc: Proc, w: World)
    requires Quiet(env) && ValidRegistry(reg) && OrdersFit(o, proc, found) && proc.known == found.Keys
    requires forall job :: job in JobsFor(reg, found, o.hosts) ==> JobSettled(cfg, job, w.stores)
    requires forall job :: job in JobsFor(reg, found, o.hosts) && job.writer.Some? ==>
               job.writer.value in reg && WantedMeta(job.host, proc.rec) == NextMeta(job.host)
    ensures SameStores(Cycle(cfg, env, reg, found, o, proc, w).w.stores, w.stores)
    ensures Cycle(cfg, env, reg, found, o, proc, w).alive
  {
    hide JobSettled;
    hide WantedMeta;
    hide NextMeta;
    var jobs := JobsFor(reg, found, o.hosts);
    QuietSnapshot(env, reg, w);
    var (w1, snap) := TakeSnapshot(env, reg, w);
    RestingJobs(cfg, env, snap, jobs, w.stores, Progress(w1, proc.rec, [], true));
    NoOrphans(reg, found, o, proc);
  }

  /** Every job of a first cycle in which all succeeded is settled, and its metadata is what the next cycle prints. */
  lemma JobAfterCycle(
    cfg: Config, env: Env, reg: Registry, found: Found, o: Orders, proc: Proc, w: World, job: Job)
    requires Quiet(env) && Regular(cfg, reg, found, o, proc) && Survivable(reg, found, w.stores)
    requires AllOk(AfterEnsure(cfg, env, reg, found, o.hosts, proc, w).0.actions)
    requires SpreadOut(reg, job.host)
    requires job in JobsFor(reg, found, o.hosts)
    ensures var first := Cycle(cfg, env, reg, found, o, proc, w);
            && JobSettled(cfg, job, first.w.stores)
            && (job.writer.Some? ==>
                  job.writer.value in reg && WantedMeta(job.host, first.proc.rec) == NextMeta(job.host))
  {
    hide JobSettled;
    hide WantedMeta;
    hide NextMeta;
    var jobs := JobsFor(reg, found, o.hosts);
    CycleSettles(cfg, env, reg, found, o, proc, w);
    var i :| 0 <= i < |jobs| && jobs[i] == job;
    JobResult(cfg, env, reg, found, o, proc, w, i);
    if job.writer.Some? {
      JobWriter(reg, found, o.hosts, job);
      var (w0, snap0) := TakeSnapshot(env, reg, w);
      RecoveredOnce(cfg, env, snap0, jobs, Progress(w0, proc.rec, [], true), job);
    }
  }

  lemma JobHosts(reg: Registry, found: Found, order: seq<string>)
    requires AllSpreadOut(reg, found) && forall k :: k in order ==> k in found
    ensures forall job :: job in JobsFor(reg, found, order) ==> SpreadOut(reg, job.host)
  {
    JobsForOrigin(reg, found, order);
  }

  lemma JobWriter(reg: Registry, found: Found, order: seq<string>, job: Job)
    requires forall k :: k in order ==> k in found
    requires job in JobsFor(reg, found, order) && job.writer.Some?
    ensures job.writer.value in reg
  {
    JobsForMembers(reg, found, order);
    var k :| k in order && job in HostJobs(reg, found[k]);
    HostJobsShape(reg, found[k], job);
  }

  lemma JobResult(
    cfg: Config, env: Env, reg: Registry, found: Found, o: Orders, proc: Proc, w: World, i: nat)
    requires Quiet(env) && Regular(cfg, reg, found, o, proc) && Survivable(reg, found, w.stores)
    requires i < |JobsFor(reg, found, o.hosts)| && SpreadOut(reg, JobsFor(reg, found, o.hosts)[i].host)
    ensures var actions := AfterEnsure(cfg, env, reg, found, o.hosts, proc, w).0.actions;
            i < |actions| && JobDone(cfg, JobsFor(reg, found, o.hosts)[i], actions[i], w.stores,
                                     Cycle(cfg, env, reg, found, o, proc, w).w.stores)
  {
    CycleSettles(cfg, env, reg, found, o, proc, w);
  }

  ghost function Reported(h: Hostname, inst: Instance, s: Store): Kind {
    if Blocked(h, inst, s) || (exists r :: r in s && AsksFor(h, inst, r)) then Skipped
    else if exists r :: r in s && DataFor(h, r) then Updated
    else Created
  }

  /** A list of jobs that is outlived reports each of them, in order, under the names of its host and its writer. */
  lemma {:induction false} ActionNames(cfg: Config, env: Env, snap: Snapshot, jobs: seq<Job>, st: Progress)
    requires st.actions == [] && st.alive && EnsureJobs(cfg, env, snap, jobs, st).alive
    ensures var actions := EnsureJobs(cfg, env, snap, jobs, st).actions;
            && |actions| == |jobs|
            && forall i :: 0 <= i < |jobs| ==>
                 && actions[i].host == jobs[i].host.name
                 && actions[i].provider == if jobs[i].writer.Some? then jobs[i].writer.value.name else ""
    decreases |jobs|
  {
    hide EnsureWrite;
    if jobs != [] { ActionNames(cfg, env, snap, jobs[..|jobs| - 1], st); }
  }

  /**
   * What a cycle without failures reports for a spread-out host at a writer: skipped if another type keeps it
   * out or the record asked for is there, else updated if the host has data there, and else created.
   */
  lemma ActionsExactly(
    cfg: Config, env: Env, reg: Registry, found: Found, o: Orders, proc: Proc, w: World, i: nat)
    requires Quiet(env) && Regular(cfg, reg, found, o, proc) && Survivable(reg, found, w.stores)
    requires i < |JobsFor(reg, found, o.hosts)| && JobsFor(reg, found, o.hosts)[i].writer.Some?
    requires SpreadOut(reg, JobsFor(reg, found, o.hosts)[i].host)
    ensures var actions := AfterEnsure(cfg, env, reg, found, o.hosts, proc, w).0.actions;
            var h, inst := JobsFor(reg, found, o.hosts)[i].host, JobsFor(reg, found, o.hosts)[i].writer.value;
            var s := At(w.stores, inst.identity);
            && i < |actions|
            && (actions[i].ok <==> !Misses(h, inst, s))
            && actions[i].kind == (if actions[i].ok then Reported(h, inst, s) else Created)
            && actions[i].provider == inst.name && actions[i].host == h.name
  {
    hide Cycle;
    hide AfterEnsure;
    hide Survivable;
    hide SpreadOut;
    hide Clashes;
    hide Blocked;
    hide AsksFor;
    hide Misses;
    hide Has;
    hide WantedRecord;
    hide Normalize;
    hide JobServed;
    hide JobSettled;
    hide JobTidy;
    hide JobMarked;
    hide JobIdle;
    QuietOutlives(cfg, env, reg, found, o, proc, w);
    var job := JobsFor(reg, found, o.hosts)[i];
    var h, inst := job.host, job.writer.value;
    JobResult(cfg, env, reg, found, o, proc, w, i);
    CycleActionNames(cfg, env, reg, found, o, proc, w, i);
    BlockedExactly(h, inst, At(w.stores, inst.identity));
    MissesExactly(h, inst, At(w.stores, inst.identity));
    ServedExactly(h, inst, At(w.stores, inst.identity));
    WantedName(h, inst);
    assert forall r :: DataFor(h, r) <==> DataOf(WantOf(job), r);
  }

  lemma CycleActionNames(cfg: Config, env: Env, reg: Registry, found: Found, o: Orders, proc: Proc, w: World, i: nat)
    requires cfg.enabled && OrdersFit(o, proc, found) && Cycle(cfg, env, reg, found, o, proc, w).alive
    requires i < |JobsFor(reg, found, o.hosts)| && JobsFor(reg, found, o.hosts)[i].writer.Some?
    ensures var actions, job := AfterEnsure(cfg, env, reg, found, o.hosts, proc, w).0.actions, JobsFor(reg, found, o.hosts)[i];
            i < |actions| && actions[i].provider == job.writer.value.name && actions[i].host == job.host.name
  {
    hide EnsureJobs;
    hide CleanAll;
    hide Tripped;
    var (w1, snap) := TakeSnapshot(env, reg, w);
    ActionNames(cfg, env, snap, JobsFor(reg, found, o.hosts), Progress(w1, proc.rec, [], true));
  }

  /** A tidy store never makes an update miss. */
  lemma TidyNeverMisses(job: Job, stores: map<Identity, Store>)
    requires JobTidy(job, stores)
    ensures !JobMisses(job, stores)
  {
  }

  lemma NextRegular(cfg: Config, env: Env, reg: Registry, found: Found, o: Orders, o2: Orders, proc: Proc, w: World)
    requires Quiet(env) && Regular(cfg, reg, found, o, proc) && Survivable(reg, found, w.stores)
    requires OrdersFit(o2, Cycle(cfg, env, reg, found, o, proc, w).proc, found)
    ensures Regular(cfg, reg, found, o2, Cycle(cfg, env, reg, found, o, proc, w).proc)
  {
    forall n | n in found.Keys ensures n != "" && Normalize(n) == n {
      ValidCanonical(found[n].name);
    }
    CycleRec(cfg.instanceID, cfg, env, reg, found, o, Pass(proc, w, true));
  }

  /**
   * Whatever failed or interfered in a run, and however often the process was restarted, its next cycle is
   * regular: the names it knows are canonical, if those of its markers in the stores are, and no metadata
   * it remembers gives another ID.
   */
  lemma RunKeepsRegular(
    cfg: Config, reg: Registry, found: Found, o: Orders, names: set<string>, env: Env, turns: seq<Turn>, p: Pass)
    requires cfg.enabled && !cfg.dryRun && ValidRegistry(reg) && WellFound(found)
    requires forall t :: t in turns ==> TurnOf(cfg.instanceID, names, t)
    requires CanonicalNames(names) && Contained(cfg.instanceID, names, p) && OthersKeepOut(cfg.instanceID, names, env)
    requires PlainRec(cfg.instanceID, p.proc.rec)
    requires OrdersFit(o, Run(env, turns, p).proc, found)
    ensures Regular(cfg, reg, found, o, Run(env, turns, p).proc)
  {
    RunFootprint(cfg.instanceID, names, env, turns, p);
    RunRec(cfg.instanceID, env, turns, p);
  }

  /**
   * A missed update heals by itself: after any cycle without failed calls, every action of the next
   * one succeeds, so the cycle after that changes nothing.
   */
  lemma ThirdCycleRests(
    cfg: Config, env: Env, env2: Env, env3: Env, reg: Registry, found: Found, o: Orders, o2: Orders, o3: Orders,
    proc: Proc, w: World)
    requires Quiet(env) && Quiet(env2) && Quiet(env3) && Regular(cfg, reg, found, o, proc)
    requires AllSpreadOut(reg, found) && Survivable(reg, found, w.stores)
    requires OrdersFit(o2, Cycle(cfg, env, reg, found, o, proc, w).proc, found)
    requires var first := Cycle(cfg, env, reg, found, o, proc, w);
             OrdersFit(o3, Cycle(cfg, env2, reg, found, o2, first.proc, first.w).proc, found)
    ensures var first := Cycle(cfg, env, reg, found, o, proc, w);
            var second := Cycle(cfg, env2, reg, found, o2, first.proc, first.w);
            && first.alive && second.alive && Cycle(cfg, env3, reg, found, o3, second.proc, second.w).alive
            && AllOk(AfterEnsure(cfg, env2, reg, found, o2.hosts, first.proc, first.w).0.actions)
            && SameStores(Cycle(cfg, env3, reg, found, o3, second.proc, second.w).w.stores, second.w.stores)
  {
    hide Cycle;
    hide AfterEnsure;
    hide AllOk;
    hide SameStores;
    hide Survivable;
    var first := Cycle(cfg, env, reg, found, o, proc, w);
    QuietOutlives(cfg, env, reg, found, o, proc, w);
    NextRegular(cfg, env, reg, found, o, o2, proc, w);
    SecondCycleOk(cfg, env, env2, reg, found, o, o2, proc, w);
    SecondCycleRests(cfg, env2, env3, reg, found, o2, o3, first.proc, first.w);
  }

  /** A cycle that was outlived leaves nothing behind that would end the next one. */
  lemma NextSurvivable(cfg: Config, env: Env, reg: Registry, found: Found, o: Orders, proc: Proc, w: World)
    requires Quiet(env) && Regular(cfg, reg, found, o, proc) && AllSpreadOut(reg, found) && Survivable(reg, found, w.stores)
    ensures Survivable(reg, found, Cycle(cfg, env, reg, found, o, proc, w).w.stores)
  {
    hide Cycle;
    hide Survivable;
    hide Tidy;
    hide Doomed;
    var jobs := JobsFor(reg, found, o.hosts);
    var first := Cycle(cfg, env, reg, found, o, proc, w);
    JobHosts(reg, found, o.hosts);
    forall i | 0 <= i < |jobs| ensures !JobDoomed(jobs[i], first.w.stores) {
      assert jobs[i] in jobs;
      JobResult(cfg, env, reg, found, o, proc, w, i);
      if jobs[i].writer.Some? {
        TidyOutlives(WantOf(jobs[i]), At(first.w.stores, jobs[i].writer.value.identity));
      }
    }
    SurvivableJobs(reg, found, o.hosts, first.w.stores);
  }

  lemma SecondCycleOk(
    cfg: Config, env: Env, env2: Env, reg: Registry, found: Found, o: Orders, o2: Orders, proc: Proc, w: World)
    requires Quiet(env) && Quiet(env2) && Regular(cfg, reg, found, o, proc) && AllSpreadOut(reg, found)
    requires Survivable(reg, found, w.stores)
    requires Regular(cfg, reg, found, o2, Cycle(cfg, env, reg, found, o, proc, w).proc)
    ensures var first := Cycle(cfg, env, reg, found, o, proc, w);
            && Survivable(reg, found, first.w.stores)
            && AllOk(AfterEnsure(cfg, env2, reg, found, o2.hosts, first.proc, first.w).0.actions)
  {
    var first := Cycle(cfg, env, reg, found, o, proc, w);
    var jobs, jobs2 := JobsFor(reg, found, o.hosts), JobsFor(reg, found, o2.hosts);
    SameJobs(reg, found, o.hosts, o2.hosts);
    NextSurvivable(cfg, env, reg, found, o, proc, w);
    CycleSettles(cfg, env2, reg, found, o2, first.proc, first.w);
    JobHosts(reg, found, o2.hosts);
    var actions := AfterEnsure(cfg, env2, reg, found, o2.hosts, first.proc, first.w).0.actions;
    forall i | 0 <= i < |actions| ensures actions[i].ok {
      assert jobs2[i] in jobs2;
      var j :| 0 <= j < |jobs| && jobs[j] == jobs2[i];
      JobResult(cfg, env, reg, found, o, proc, w, j);
      TidyNeverMisses(jobs2[i], first.w.stores);
      JobResult(cfg, env2, reg, found, o2, first.proc, first.w, i);
    }
  }
}
