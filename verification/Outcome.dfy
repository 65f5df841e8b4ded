/** Exactly which data records a cycle leaves of a host at a backend, and what a job does without a snapshot. */
module Outcome {
  import opened Wrappers
  import opened Names
  import opened Backend
  import opened Cache
  import opened Model
  import opened Traces
  import opened Settling
  import opened Isolation
  import opened Convergence
  import opened Requests
  import opened Fixpoint
  import opened Sharing

  /**
   * Whether the host's data record `k` is left of the store `s`: if data of another type are there nothing
   * changes; else stale SRV records go, and the record asked for takes the place of the first one,
   * unless it is there already, or a native update misses.
   */
  ghost predicate LeftFor(h: Hostname, inst: Instance, s: Store, k: Record) {
    var existing := DataAt(s, Normalize(h.name));
    var kept := Has(s, k) && !Stale(h, inst, k);
    if Blocked(h, inst, s) then Has(s, k)
    else if exists r :: r in existing && AsksFor(h, inst, r) then kept
    else || (kept && (existing != [] ==> !SameKey(k, existing[0])))
         || (AsksFor(h, inst, k) && !Misses(h, inst, s))
  }

  /** What a plan made on a store leaves of that store's keys, in the terms of the request. */
  lemma PlanLeaves(h: Hostname, inst: Instance, s: Store, k: Record)
    requires DataFor(h, k)
    ensures KeyAfter(inst, WantedRecord(h, inst), PlanFor(WantedRecord(h, inst), DataAt(s, Normalize(h.name))), s, k)
       <==> LeftFor(h, inst, s, k)
  {
    hide WantedRecord;
    hide AsksFor;
    hide Requests.Stale;
    hide Exact;
    hide Outdated;
    hide PlanFor;
    hide KeyAfter;
    hide Misses;
    hide Blocked;
    hide SameKey;
    hide Normalize;
    var want, existing := WantedRecord(h, inst), DataAt(s, Normalize(h.name));
    WantedName(h, inst);
    WantedAsAsked(h, inst, k);
    BlockedExactly(h, inst, s);
    KindCases(want, s);
    if Blocked(h, inst, s) {
      BlockedPlan(inst, want, s, k);
    } else if existing == [] {
      FreshPlan(h, inst, s, k);
    } else {
      TypedPlan(h, inst, s, k);
    }
  }

  lemma BlockedPlan(inst: Instance, want: Record, s: Store, k: Record)
    requires Clashes(want, s)
    ensures KeyAfter(inst, want, PlanFor(want, DataAt(s, Normalize(want.host))), s, k) <==> Has(s, k)
  {
    IdleExactly(want, s);
  }

  lemma FreshPlan(h: Hostname, inst: Instance, s: Store, k: Record)
    requires DataFor(h, k) && DataAt(s, Normalize(h.name)) == []
    ensures KeyAfter(inst, WantedRecord(h, inst), Fresh, s, k) <==> AsksFor(h, inst, k)
    ensures PlanFor(WantedRecord(h, inst), DataAt(s, Normalize(h.name))).Fresh?
    ensures !Has(s, k) && !Misses(h, inst, s)
  {
    WantedAsAsked(h, inst, k);
    assert forall r :: r in s && DataFor(h, r) ==> r in DataAt(s, Normalize(h.name));
  }

  lemma TypedPlan(h: Hostname, inst: Instance, s: Store, k: Record)
    requires DataFor(h, k) && DataAt(s, Normalize(h.name)) != [] && !Blocked(h, inst, s)
    ensures KeyAfter(inst, WantedRecord(h, inst), PlanFor(WantedRecord(h, inst), DataAt(s, Normalize(h.name))), s, k)
       <==> LeftFor(h, inst, s, k)
  {
    hide WantedRecord;
    hide AsksFor;
    hide Requests.Stale;
    hide Exact;
    hide Outdated;
    hide PlanFor;
    hide KeyAfter;
    hide SameKey;
    hide Normalize;
    var want, existing := WantedRecord(h, inst), DataAt(s, Normalize(h.name));
    WantedName(h, inst);
    WantedAsAsked(h, inst, k);
    assert forall r :: r in existing ==> Alike(want, r);
    forall r | DataFor(h, r)
      ensures Requests.Stale(h, inst, r) <==> Outdated(want, r)
      ensures r.rtype == want.rtype ==> (AsksFor(h, inst, r) <==> Exact(want, r))
    {
      Requests.StaleExactly(h, inst, r);
    }
    assert existing[0] in existing;
    KeysHere(s, existing, h, k);
    if k.rtype == want.rtype {
      PlanKeys(inst, want, existing, s, k);
      HasOwn(s, existing[0]);
    } else {
      OtherTypePlan(inst, want, existing, s, k);
      OtherTypeAsked(h, inst, k);
    }
  }

  lemma OtherTypeAsked(h: Hostname, inst: Instance, k: Record)
    requires k.rtype != AskedType(h, inst)
    ensures !AsksFor(h, inst, k)
  {
  }

  lemma KeysHere(s: Store, existing: Store, h: Hostname, k: Record)
    requires existing == DataAt(s, Normalize(h.name)) && DataFor(h, k)
    ensures Has(s, k) <==> Has(existing, k)
  {
    hide Normalize;
    if r :| r in s && SameKey(r, k) { assert r in existing; }
  }

  lemma OtherTypePlan(inst: Instance, want: Record, existing: Store, s: Store, k: Record)
    requires existing != [] && (forall r :: r in existing ==> Alike(want, r)) && k.rtype != want.rtype
    requires Has(s, k) <==> Has(existing, k)
    ensures !KeyAfter(inst, want, PlanFor(want, existing), s, k) && !Has(s, k)
  {
    hide KeyOfStale;
    hide Normalize;
    PlanCases(want, existing);
    assert existing[0] in existing;
  }

  /** What a job leaves of its host's data, from a snapshot of a store `stores0` that agrees about the host. */
  lemma JobLeavesExactly(
    cfg: Config, env: Env, snap: Snapshot, h: Hostname, inst: Instance, meta: Meta, stores0: map<Identity, Store>, w: World,
    k: Record)
    requires Quiet(env) && !cfg.dryRun && Mirrors(snap, stores0, inst) && !JobDoomed(Job(h, Some(inst)), stores0)
    requires Agree(WantedRecord(h, inst), At(stores0, inst.identity), At(w.stores, inst.identity)) && DataFor(h, k)
    ensures Has(At(EnsureWrite(cfg, env, snap, h, inst, meta, w).w.stores, inst.identity), k)
       <==> LeftFor(h, inst, At(stores0, inst.identity), k)
  {
    hide EnsureWrite;
    hide CarryOut;
    hide WantedRecord;
    hide LeftFor;
    hide KeyAfter;
    hide PlanFor;
    hide Has;
    hide Agree;
    hide Normalize;
    var s, want := At(stores0, inst.identity), WantedRecord(h, inst);
    var existing := DataAt(s, Normalize(h.name));
    JobStep(cfg, env, snap, Job(h, Some(inst)), meta, stores0, w);
    CarryKeys(cfg, env, inst, want, meta, Marked(s, h.name, cfg.instanceID), PlanFor(want, existing), w, k);
    KeyAfterAgrees(inst, want, existing, s, At(w.stores, inst.identity), k);
    PlanLeaves(h, inst, s, k);
  }

  // ---- A whole cycle ----

  /** No other writer of the host uses the backend of this one. */
  ghost predicate OnlyHere(reg: Registry, h: Hostname, inst: Instance) {
    inst in Writers(reg, h) && forall x :: x in Writers(reg, h) && x.identity == inst.identity ==> x == inst
  }

  /** The i-th job is the only one about its host on its backend. */
  ghost predicate LoneAt(jobs: seq<Job>, i: nat, h: Hostname, inst: Instance) {
    && i < |jobs| && jobs[i] == Job(h, Some(inst))
    && forall j :: 0 <= j < |jobs| ==>
         ValidName(jobs[j].host) && (j != i && SameBackend(jobs[j], jobs[i]) ==> NameOf(jobs[j]) != NameOf(jobs[i]))
  }

  /** The job has its host's data at its backend to itself. */
  lemma LoneTurn(
    cfg: Config, env: Env, snap: Snapshot, jobs: seq<Job>, i: nat, st0: Progress, h: Hostname, inst: Instance)
    requires Quiet(env) && LoneAt(jobs, i, h, inst)
    ensures var st, want, id := EnsureJobs(cfg, env, snap, jobs[..i], st0), WantedRecord(h, inst), inst.identity;
            && Agree(want, At(st0.w.stores, id), At(st.w.stores, id))
            && Agree(want, At(EnsureJob(cfg, env, snap, jobs[i], st).w.stores, id),
                     At(EnsureJobs(cfg, env, snap, jobs, st0).w.stores, id))
            && (EnsureJobs(cfg, env, snap, jobs, st0).alive ==> st.alive)
  {
    hide EnsureJob;
    hide Agree;
    hide ValidName;
    hide Normalize;
    var before, after := jobs[..i], jobs[i + 1..];
    var st := EnsureJobs(cfg, env, snap, before, st0);
    assert jobs[..i + 1][..i] == before && jobs == jobs[..i + 1] + after;
    EnsureJobsAppend(cfg, env, snap, jobs[..i + 1], after, st0);
    OthersFrame(cfg, env, snap, before, st0, h, inst);
    OthersFrame(cfg, env, snap, after, EnsureJob(cfg, env, snap, jobs[i], st), h, inst);
    if !st.alive {
      assert jobs == before + jobs[i..];
      EnsureJobsAppend(cfg, env, snap, before, jobs[i..], st0);
      DeadEnsures(cfg, env, snap, jobs[i..], st);
    }
  }

  lemma OnlyHereIsLone(reg: Registry, found: Found, order: seq<string>, k: string, inst: Instance) returns (i: nat)
    requires ValidRegistry(reg) && WellFound(found) && Enumerates(order, found.Keys)
    requires k in found && SpreadOut(reg, found[k]) && OnlyHere(reg, found[k], inst)
    ensures LoneAt(JobsFor(reg, found, order), i, found[k], inst)
  {
    hide HostJobs;
    hide Writers;
    hide ValidName;
    hide WantedRecord;
    hide SpreadOut;
    var jobs, h := JobsFor(reg, found, order), found[k];
    i := JobOf(reg, found, order, k, inst);
    JobsUnclashing(reg, found, order, {k});
    JobsForOrigin(reg, found, order);
    forall j | 0 <= j < |jobs|
      ensures ValidName(jobs[j].host) && (j != i && SameBackend(jobs[j], jobs[i]) ==> NameOf(jobs[j]) != NameOf(jobs[i]))
    {
      assert jobs[j] in jobs;
      var x :| x in order && jobs[j].host == found[x] && (jobs[j].writer.Some? ==> jobs[j].writer.value in Writers(reg, found[x]));
      FoundValid(found, x);
      FoundName(found, x);
      FoundName(found, k);
    }
  }

  /**
   * What a cycle without failures leaves, record by record: of a spread-out host at a backend that only one of
   * its writers uses, exactly the data that the request leaves of what was there before.
   */
  lemma CycleLeavesExactly(
    cfg: Config, env: Env, reg: Registry, found: Found, o: Orders, proc: Proc, w: World, k: string, inst: Instance, r: Record)
    requires Quiet(env) && Regular(cfg, reg, found, o, proc) && Survivable(reg, found, w.stores)
    requires k in found && SpreadOut(reg, found[k]) && OnlyHere(reg, found[k], inst) && DataFor(found[k], r)
    ensures Has(At(Cycle(cfg, env, reg, found, o, proc, w).w.stores, inst.identity), r)
       <==> LeftFor(found[k], inst, At(w.stores, inst.identity), r)
  {
    hide LeftFor;
    hide EnsureWrite;
    hide EnsureJobs;
    hide CleanAll;
    hide Agree;
    hide Has;
    hide Normalize;
    hide WantedRecord;
    hide SpreadOut;
    hide ValidName;
    hide Tripped;
    hide Mirrors;
    hide TakeSnapshot;
    hide Writers;
    var h, id := found[k], inst.identity;
    var want, job := WantedRecord(h, inst), Job(h, Some(inst));
    var jobs := JobsFor(reg, found, o.hosts);
    var (w1, snap) := TakeSnapshot(env, reg, w);
    var st0 := Progress(w1, proc.rec, [], true);
    var i := OnlyHereIsLone(reg, found, o.hosts, k, inst);
    WritersPart(reg, h);
    QuietSnapshot(env, reg, w);
    QuietMirrors(env, reg, w);
    QuietOutlives(cfg, env, reg, found, o, proc, w);
    LoneTurn(cfg, env, snap, jobs, i, st0, h, inst);
    var st, last := EnsureJobs(cfg, env, snap, jobs[..i], st0), EnsureJobs(cfg, env, snap, jobs, st0);
    LoneLives(reg, found, o, w.stores, k, inst);
    JobLeavesExactly(cfg, env, snap, h, inst, WantedMeta(h, st.rec), w.stores, st.w, r);
    WantedName(h, inst);
    DataAgrees(want, At(EnsureJob(cfg, env, snap, job, st).w.stores, id), At(last.w.stores, id), r);
    if cfg.cleanup && !Tripped(proc.known, found) {
      CleanupKeepsJobs(cfg, env, reg, found, o, proc, snap, last.w);
      assert job in jobs;
      DataAgrees(want, At(last.w.stores, id), At(Cycle(cfg, env, reg, found, o, proc, w).w.stores, id), r);
    }
  }

  lemma LoneLives(reg: Registry, found: Found, o: Orders, stores: map<Identity, Store>, k: string, inst: Instance)
    requires Survivable(reg, found, stores) && k in found && inst in Writers(reg, found[k])
    ensures !JobDoomed(Job(found[k], Some(inst)), stores)
  {
  }

  // ---- A job without a snapshot ----

  /**
   * A provider whose snapshot failed and that answers again: unless a data record of the host differs from it by
   * a trailing dot, the job does to the store what it would have done with the snapshot.
   */
  lemma UnlistedJobLeaves(cfg: Config, env: Env, snap: Snapshot, h: Hostname, inst: Instance, meta: Meta, w: World, k: Record)
    requires Quiet(env) && !cfg.dryRun && (inst.name in snap ==> snap[inst.name].None?)
    requires forall r :: r in At(w.stores, inst.identity) && DataFor(h, r) ==> Lower(r.host) == Lower(h.name)
    requires DataFor(h, k)
    ensures var step := EnsureWrite(cfg, env, snap, h, inst, meta, w);
            var s, t := At(w.stores, inst.identity), At(step.w.stores, inst.identity);
            && (step.kind.Panicked? <==> JobDoomed(Job(h, Some(inst)), w.stores))
            && (!step.kind.Panicked? ==>
                  && (step.ok <==> !Misses(h, inst, s))
                  && (Has(t, k) <==> LeftFor(h, inst, s, k))
                  && (!Blocked(h, inst, s) ==> (step.ok <==> exists r :: r in t && AsksFor(h, inst, r))))
  {
    hide CarryOut;
    hide WantedRecord;
    hide LeftFor;
    hide KeyAfter;
    hide PlanFor;
    hide Has;
    hide Normalize;
    hide Misses;
    hide Blocked;
    hide AsksFor;
    hide Panics;
    hide Doomed;
    hide Steady;
    hide Current;
    hide Tidy;
    hide Settled;
    hide Marked;
    hide Clashes;
    var s, want := At(w.stores, inst.identity), WantedRecord(h, inst);
    var existing := DataAt(s, Normalize(h.name));
    var w1 := Listed(env, inst, w).0;
    QuietListed(env, inst, w);
    FallbackAgreesExactlyWhen(s, h.name);
    assert Existing(env, inst, h.name, snap, w) == (w1, existing);
    WantedName(h, inst);
    DoomedExactly(want, s);
    if !Panics(PlanFor(want, existing)) {
      CarryKeys(cfg, env, inst, want, meta, false, PlanFor(want, existing), w1, k);
      PlanLeaves(h, inst, s, k);
      MissesExactly(h, inst, s);
      BlockedExactly(h, inst, s);
      KindCases(want, s);
      CurrentHere(want, s);
      assert Steady(cfg.instanceID, meta, meta) by { SteadySelf(cfg.instanceID, meta); }
      CarrySettles(cfg, env, inst, want, meta, meta, false, existing, w1);
      ServedExactly(h, inst, At(EnsureWrite(cfg, env, snap, h, inst, meta, w).w.stores, inst.identity));
    }
  }

  lemma SteadySelf(id: string, meta: Model.Meta)
    ensures Steady(id, meta, meta)
  {
  }

  lemma CurrentHere(want: Record, s: Store)
    ensures Current(want, DataAt(s, Normalize(want.host)), s)
    ensures PlanFor(want, DataAt(s, Normalize(want.host))).Clash? <==> Clashes(want, s)
  {
    CurrentByAgree(want, s, s);
  }
}
