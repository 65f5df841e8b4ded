/**
 * A process that dies of a record.
 *
 * A stale SRV record that a provider lists without SRV data ends the process.  The record is still there
 * afterwards, so the next process dies of it as well.
 */
module Panicking {
  import opened Wrappers
  import opened Names
  import opened Backend
  import opened Model
  import opened Traces
  import opened Settling
  import opened Isolation
  import opened Convergence
  import opened Fixpoint
  import opened Restart

  // ---- One cycle ----

  lemma DoomedAgrees(want: Record, s: Store, t: Store)
    requires Agree(want, s, t) && Doomed(want, s)
    ensures Doomed(want, t)
  {
    var r :| r in s && DataOf(want, r) && r.target == want.target && r.srv.None?;
    assert r in t;
  }

  /** The calls a dying job still makes leave every record without SRV data, and add none. */
  lemma BareStays(env: Env, inst: Instance, want: Record, stale: Store, w: World)
    requires Quiet(env) && Doomed(want, At(w.stores, inst.identity))
    ensures Doomed(want, At(PerformAll(w, env, StaleCalls(inst, want.host, UntilBare(stale))).stores, inst.identity))
  {
    StaleDeleted(env, inst, want.host, UntilBare(stale), w);
    var r :| r in At(w.stores, inst.identity) && DataOf(want, r) && r.target == want.target && r.srv.None?;
    assert !KeyOfStale(want.host, UntilBare(stale), r);
  }

  lemma DyingJob(cfg: Config, env: Env, snap: Snapshot, job: Job, meta: Meta, stores0: map<Identity, Store>, w: World)
    requires Quiet(env) && !cfg.dryRun && job.writer.Some? && Mirrors(snap, stores0, job.writer.value)
    requires JobDoomed(job, stores0) && JobDoomed(job, w.stores)
    ensures JobDoomed(job, EnsureWrite(cfg, env, snap, job.host, job.writer.value, meta, w).w.stores)
  {
    hide Doomed;
    hide PlanFor;
    hide EnsureWrite;
    hide Mirrors;
    hide CarryOut;
    var inst, want := job.writer.value, WantOf(job);
    JobCarries(cfg, env, snap, job, meta, stores0, w);
    DoomedExactly(want, At(stores0, inst.identity));
    BareStays(env, inst, want, PlanFor(want, DataAt(At(stores0, inst.identity), Normalize(job.host.name))).stale, w);
  }

  /** The job is the only one of the list about its host on its backend. */
  ghost predicate Lone(jobs: seq<Job>, job: Job) {
    forall x :: x in jobs && SameBackend(x, job) && NameOf(x) == NameOf(job) ==> x == job
  }

  lemma {:induction false} DoomStays(
    cfg: Config, env: Env, snap: Snapshot, jobs: seq<Job>, job: Job, stores0: map<Identity, Store>, st: Progress)
    requires Quiet(env) && !cfg.dryRun && Lone(jobs, job) && job.writer.Some? && ValidName(job.host)
    requires forall x :: x in jobs ==> ValidName(x.host) && (x.writer.Some? ==> Mirrors(snap, stores0, x.writer.value))
    requires JobDoomed(job, stores0) && JobDoomed(job, st.w.stores)
    ensures JobDoomed(job, EnsureJobs(cfg, env, snap, jobs, st).w.stores)
    decreases |jobs|
  {
    hide EnsureWrite;
    hide Doomed;
    hide ValidName;
    hide Mirrors;
    if jobs != [] {
      var n := |jobs| - 1;
      var x := jobs[n];
      assert x in jobs && forall y :: y in jobs[..n] ==> y in jobs;
      DoomStays(cfg, env, snap, jobs[..n], job, stores0, st);
      var st1 := EnsureJobs(cfg, env, snap, jobs[..n], st);
      if st1.alive && x.writer.Some? {
        if x == job {
          DyingJob(cfg, env, snap, job, WantedMeta(x.host, st1.rec), stores0, st1.w);
        } else {
          OtherJobSpares(cfg, env, snap, x, WantedMeta(x.host, st1.rec), st1.w, job);
        }
      }
    }
  }

  lemma OtherJobSpares(cfg: Config, env: Env, snap: Snapshot, x: Job, meta: Meta, w: World, job: Job)
    requires Quiet(env) && ValidName(x.host) && ValidName(job.host) && x.writer.Some? && job.writer.Some?
    requires !(SameBackend(x, job) && NameOf(x) == NameOf(job))
    requires JobDoomed(job, w.stores)
    ensures JobDoomed(job, EnsureWrite(cfg, env, snap, x.host, x.writer.value, meta, w).w.stores)
  {
    hide EnsureWrite;
    hide Doomed;
    hide ValidName;
    hide Agree;
    var id := job.writer.value.identity;
    JobFrame(cfg, env, snap, x.host, x.writer.value, meta, w, job.host, job.writer.value);
    DoomedAgrees(WantOf(job), At(w.stores, id), At(EnsureWrite(cfg, env, snap, x.host, x.writer.value, meta, w).w.stores, id));
  }

  /** Where SRV is wanted, all writers want it, so a spread-out host has one job at each backend. */
  lemma ServiceIsLone(reg: Registry, found: Found, order: seq<string>, k: string, inst: Instance)
    requires ValidRegistry(reg) && WellFound(found) && (forall x :: x in order ==> x in found)
    requires k in found && inst in Writers(reg, found[k]) && SpreadOut(reg, found[k])
    requires WantedRecord(found[k], inst).rtype.SRV?
    ensures Lone(JobsFor(reg, found, order), Job(found[k], Some(inst)))
  {
    hide WellFound;
    hide Writers;
    hide Normalize;
    var h, jobs := found[k], JobsFor(reg, found, order);
    JobsForMembers(reg, found, order);
    WritersPart(reg, h);
    FoundName(found, k);
    forall job | job in jobs && SameBackend(job, Job(h, Some(inst))) && NameOf(job) == Normalize(h.name)
      ensures job == Job(h, Some(inst))
    {
      var x :| x in order && job in HostJobs(reg, found[x]);
      HostJobsShape(reg, found[x], job);
      FoundName(found, x);
      var writers := Writers(reg, h);
      var i :| 0 <= i < |writers| && writers[i] == inst;
      var j :| 0 <= j < |writers| && writers[j] == job.writer.value;
      assert writers[i] in reg && writers[j] in reg;
      assert WantedRecord(h, writers[i]).rtype == WantedRecord(h, writers[j]).rtype;
      assert i == j;
    }
  }

  /** A cycle without failures that meets such a record ends the process, and leaves the record. */
  lemma DyingCycle(
    cfg: Config, env: Env, reg: Registry, found: Found, o: Orders, proc: Proc, w: World, k: string, inst: Instance)
    requires Quiet(env) && cfg.enabled && !cfg.dryRun && ValidRegistry(reg) && WellFound(found) && OrdersFit(o, proc, found)
    requires k in found && inst in Writers(reg, found[k]) && SpreadOut(reg, found[k])
    requires Doomed(WantedRecord(found[k], inst), At(w.stores, inst.identity))
    ensures !Cycle(cfg, env, reg, found, o, proc, w).alive
    ensures Doomed(WantedRecord(found[k], inst), At(Cycle(cfg, env, reg, found, o, proc, w).w.stores, inst.identity))
  {
    hide EnsureJobs;
    hide CleanAll;
    hide Tripped;
    hide Mirrors;
    hide Writers;
    hide SpreadOut;
    hide ValidName;
    var job, jobs := Job(found[k], Some(inst)), JobsFor(reg, found, o.hosts);
    var (w1, snap) := TakeSnapshot(env, reg, w);
    QuietMirrors(env, reg, w);
    QuietSnapshot(env, reg, w);
    CycleOutlivedExactlyWhen(cfg, env, reg, found, o, proc, w);
    assert !Survivable(reg, found, w.stores);
    assert WantedRecord(found[k], inst).rtype.SRV?;
    ServiceIsLone(reg, found, o.hosts, k, inst);
    JobsForMembers(reg, found, o.hosts);
    forall x | x in jobs ensures ValidName(x.host) && (x.writer.Some? ==> Mirrors(snap, w.stores, x.writer.value)) {
      var y :| y in o.hosts && x in HostJobs(reg, found[y]);
      HostJobsShape(reg, found[y], x);
    }
    DoomStays(cfg, env, snap, jobs, job, w.stores, Progress(w1, proc.rec, [], true));
  }

  // ---- Run after run ----

  /** The turn works on this registry, and a cycle of it writes, and discovers the host as it is. */
  ghost predicate Meets(reg: Registry, h: Hostname, t: Turn) {
    && t.reg == reg
    && (t.Tick? ==>
          && t.cfg.enabled && !t.cfg.dryRun && WellFound(t.found)
          && Normalize(h.name) in t.found && t.found[Normalize(h.name)] == h)
  }

  lemma DoomedTurn(reg: Registry, h: Hostname, inst: Instance, env: Env, t: Turn, p: Pass)
    requires Quiet(env) && ValidRegistry(reg) && Meets(reg, h, t)
    requires inst in Writers(reg, h) && SpreadOut(reg, h) && Doomed(WantedRecord(h, inst), At(p.w.stores, inst.identity))
    ensures Doomed(WantedRecord(h, inst), At(Take(env, t, p).w.stores, inst.identity))
    ensures t.Tick? && OrdersFit(t.orders, p.proc, t.found) ==> !Take(env, t, p).alive
  {
    hide Cycle;
    hide Doomed;
    hide Writers;
    hide SpreadOut;
    match t
    case Restart(cfg, _) =>
      if cfg.cleanup && cfg.tracking { RecoverAllExactly(cfg, env, reg, NEWBORN, p.w, ""); }
    case Tick(cfg, _, found, orders) =>
      if p.alive && OrdersFit(orders, p.proc, found) {
        DyingCycle(cfg, env, reg, found, orders, p.proc, p.w, Normalize(h.name), inst);
      }
  }

  /**
   * Crash loop.  While one spread-out host is discovered for which a store holds an SRV record with the
   * wanted target and without the SRV data that are wanted, every cycle without failures ends the process,
   * however often it is restarted: nothing that comes after that host, and no cleanup, is done any more.
   */
  lemma {:induction false} CrashLoop(reg: Registry, h: Hostname, inst: Instance, env: Env, turns: seq<Turn>, p: Pass)
    requires Quiet(env) && ValidRegistry(reg) && forall t :: t in turns ==> Meets(reg, h, t)
    requires inst in Writers(reg, h) && SpreadOut(reg, h) && Doomed(WantedRecord(h, inst), At(p.w.stores, inst.identity))
    ensures Doomed(WantedRecord(h, inst), At(Run(env, turns, p).w.stores, inst.identity))
    ensures forall i :: 0 <= i < |turns| && turns[i].Tick? && OrdersFit(turns[i].orders, Run(env, turns[..i], p).proc, turns[i].found) ==>
              !Run(env, turns[..i + 1], p).alive
    decreases |turns|
  {
    hide Take;
    hide Doomed;
    hide Writers;
    hide SpreadOut;
    hide OrdersFit;
    hide Meets;
    if turns != [] {
      var n := |turns| - 1;
      assert turns[n] in turns && forall t :: t in turns[..n] ==> t in turns;
      CrashLoop(reg, h, inst, env, turns[..n], p);
      DoomedTurn(reg, h, inst, env, turns[n], Run(env, turns[..n], p));
      assert turns[..n + 1] == turns;
      forall i | 0 <= i < n && turns[i].Tick? && OrdersFit(turns[i].orders, Run(env, turns[..i], p).proc, turns[i].found)
        ensures !Run(env, turns[..i + 1], p).alive
      {
        assert turns[..n][..i] == turns[..i] && turns[..n][..i + 1] == turns[..i + 1];
        assert turns[..n][i] == turns[i];
      }
    }
  }

  /** It does happen: the wanted SRV record is there, listed without its SRV data. */
  lemma BareRecordDooms(h: Hostname, inst: Instance, stores: map<Identity, Store>, bare: Record)
    requires WantedRecord(h, inst).rtype.SRV? && WantedRecord(h, inst).srv.Some?
    requires bare == WantedRecord(h, inst).(srv := None) && At(stores, inst.identity) == [bare]
    ensures JobDoomed(Job(h, Some(inst)), stores)
  {
    assert bare in [bare];
  }
}
