/**
 * Two writers of one host that want different records of one type on one backend.
 *
 * The selection of writers allows it only when a hint gives both the same type (see SpreadOut).  They
 * then overwrite each other unless the store leaves both of them something to do.
 */
module Sharing {
  import opened Wrappers
  import opened Names
  import opened Backend
  import opened Model
  import opened Settling
  import opened Isolation
  import opened Convergence
  import opened Fixpoint

  // ---- One job, key by key ----

  /** Whether the store left of `s` by deleting the stale records of the plan has the key `k`. */
  ghost predicate KeyLeft(want: Record, stale: Store, s: Store, k: Record) {
    Has(s, k) && !KeyOfStale(want.host, stale, k)
  }

  /** Whether the key `k` is in the store after carrying out the plan on `s`. */
  ghost predicate KeyAfter(inst: Instance, want: Record, plan: Plan, s: Store, k: Record) {
    match plan
    case Clash => Has(s, k)
    case Keep(stale) => KeyLeft(want, stale, s, k)
    case Change(stale, prior) =>
      || (KeyLeft(want, stale, s, k) && !SameKey(k, prior))
      || (SameKey(k, want) && (inst.nativeUpdate ==> KeyLeft(want, stale, s, prior)))
    case Fresh => Has(s, k) || SameKey(k, want)
  }

  lemma StaleKeys(env: Env, inst: Instance, want: Record, stale: Store, w: World, k: Record)
    requires Quiet(env)
    ensures Has(At(PerformAll(w, env, StaleCalls(inst, want.host, stale)).stores, inst.identity), k)
       <==> KeyLeft(want, stale, At(w.stores, inst.identity), k)
  {
    StaleDeleted(env, inst, want.host, stale, w);
  }

  lemma CreateKeys(s: Store, want: Record, k: Record)
    ensures Has(Effect(s, Create(want)), k) <==> Has(s, k) || SameKey(k, want)
  {
    var t := Effect(s, Create(want));
    if SameKey(k, want) {
      if Has(s, want) {
        var r :| r in s && SameKey(r, want);
        assert SameKey(r, k);
      } else {
        assert want in t && SameKey(want, k);
      }
    }
  }

  lemma DeleteKeys(s: Store, prior: Record, k: Record)
    ensures Has(Effect(s, Delete(prior)), k) <==> Has(s, k) && !SameKey(k, prior)
  {
  }

  lemma ReplaceKeys(s: Store, prior: Record, want: Record, k: Record)
    ensures Has(Effect(s, Update(prior, want)), k)
       <==> (Has(s, k) && !SameKey(k, prior)) || (Has(s, prior) && SameKey(k, want))
  {
    var t := Effect(s, Update(prior, want));
    if Has(s, prior) && SameKey(k, want) {
      assert want in t && SameKey(want, k);
    }
  }

  lemma UpdateKeys(env: Env, inst: Instance, prior: Record, want: Record, w: World, k: Record)
    requires Quiet(env)
    ensures var s := At(w.stores, inst.identity);
            Has(At(UpdateRecord(env, inst, prior, want, w).0.stores, inst.identity), k)
            <==> (Has(s, k) && !SameKey(k, prior)) || (SameKey(k, want) && (inst.nativeUpdate ==> Has(s, prior)))
  {
    hide Effect;
    hide Has;
    var s := At(w.stores, inst.identity);
    if inst.nativeUpdate {
      var c := Call(inst.identity, Update(prior, want));
      QuietAt(w, env, c);
      ReplaceKeys(s, prior, want, k);
    } else {
      var c := Call(inst.identity, Delete(prior));
      var w1 := Perform(w, env, c);
      QuietAt(w, env, c);
      QuietPerform(w, env, c);
      DeleteKeys(s, prior, k);
      QuietAt(w1, env, Call(inst.identity, Create(want)));
      CreateKeys(At(w1.stores, inst.identity), want, k);
    }
  }

  /** A marker is a TXT record, so it hides and shows no data key. */
  lemma MarkerKeys(cfg: Config, env: Env, inst: Instance, host: string, meta: Meta, owned: bool, w: World, k: Record)
    requires Quiet(env) && IsData(k.rtype)
    ensures Has(At(EnsureMarker(cfg, env, inst, host, meta, owned, w).stores, inst.identity), k)
       <==> Has(At(w.stores, inst.identity), k)
  {
    MarkerOnlyAdds(cfg, env, inst, host, meta, owned, w);
  }

  /** Without failures, a job's plan is carried out key by key, whatever has happened to the store meanwhile. */
  lemma CarryKeys(
    cfg: Config, env: Env, inst: Instance, want: Record, meta: Meta, owned: bool, plan: Plan, w: World, k: Record)
    requires Quiet(env) && IsData(k.rtype)
    ensures Has(At(CarryOut(cfg, env, inst, want, meta, owned, plan, w).w.stores, inst.identity), k)
       <==> KeyAfter(inst, want, plan, At(w.stores, inst.identity), k)
  {
    hide Has;
    hide EnsureMarker;
    match plan
    case Clash =>
    case Keep(stale) =>
      var w1 := PerformAll(w, env, StaleCalls(inst, want.host, stale));
      StaleKeys(env, inst, want, stale, w, k);
      MarkerKeys(cfg, env, inst, want.host, meta, owned, w1, k);
    case Change(stale, prior) =>
      var w1 := PerformAll(w, env, StaleCalls(inst, want.host, stale));
      var w2 := UpdateRecord(env, inst, prior, want, w1).0;
      StaleKeys(env, inst, want, stale, w, k);
      StaleKeys(env, inst, want, stale, w, prior);
      UpdateKeys(env, inst, prior, want, w1, k);
      MarkerKeys(cfg, env, inst, want.host, meta, owned, w2, k);
    case Fresh =>
      var c := Call(inst.identity, Create(want));
      QuietAt(w, env, c);
      CreateKeys(At(w.stores, inst.identity), want, k);
      MarkerKeys(cfg, env, inst, want.host, meta, owned, Perform(w, env, c), k);
  }

  // ---- Two jobs on the records both found ----

  predicate HoldsExact(want: Record, existing: Store) {
    exists r :: r in existing && Exact(want, r)
  }

  /** Both write the same host, type and SRV data on one backend. */
  predicate Rivals(a: Instance, b: Instance, wantA: Record, wantB: Record) {
    a.identity == b.identity && wantA.host == wantB.host && wantA.rtype == wantB.rtype && wantA.srv == wantB.srv
  }

  /**
   * Whether `a` and then `b`, deciding on the same records, leave both wanted records: the first record
   * is the one that gets overwritten, and a native update needs it to be still there.
   */
  predicate KeepsBoth(a: Instance, b: Instance, wantA: Record, wantB: Record, existing: Store) {
    existing == [] ||
    var prior := existing[0];
    var missedByA := a.nativeUpdate && Outdated(wantA, prior);
    if HoldsExact(wantA, existing) && HoldsExact(wantB, existing) then true
    else if HoldsExact(wantA, existing) then
      !Exact(wantA, prior) && !(b.nativeUpdate && (Outdated(wantA, prior) || Outdated(wantB, prior)))
    else if HoldsExact(wantB, existing) then !Exact(wantB, prior) && !missedByA
    else if wantA.target == wantB.target then !missedByA || !b.nativeUpdate
    else !missedByA && !b.nativeUpdate
  }

  /** Which keys the plan of `want` deletes as stale, for records of the wanted type. */
  lemma StaleExactly(want: Record, existing: Store, k: Record)
    requires forall r :: r in existing ==> DataOf(want, r) && r.rtype == want.rtype
    requires k.rtype == want.rtype
    ensures KeyOfStale(want.host, StaleOf(want, existing), k)
       <==> Normalize(k.host) == Normalize(want.host) && Outdated(want, k) && Has(existing, k)
  {
    if Normalize(k.host) == Normalize(want.host) && Outdated(want, k) && Has(existing, k) {
      var r :| r in existing && SameKey(r, k);
      assert r in StaleOf(want, existing) && SameKey(k, Record(want.host, SRV, r.target, 0, r.srv));
    }
  }

  /** `k` is data of the host and type of `want`. */
  predicate Alike(want: Record, k: Record) {
    IsData(k.rtype) && k.rtype == want.rtype && Normalize(k.host) == Normalize(want.host)
  }

  /** The keys after a plan made on records that are all of the wanted type. */
  ghost predicate KeyPlanned(inst: Instance, want: Record, existing: Store, s: Store, k: Record)
    requires existing != []
  {
    var prior := existing[0];
    var left := Has(s, k) && !(Outdated(want, k) && Has(existing, k));
    if HoldsExact(want, existing) then left
    else (left && !SameKey(k, prior)) || (SameKey(k, want) && (inst.nativeUpdate ==> Has(s, prior) && !Outdated(want, prior)))
  }

  lemma PlanKeys(inst: Instance, want: Record, existing: Store, s: Store, k: Record)
    requires existing != [] && forall r :: r in existing ==> Alike(want, r)
    requires Alike(want, k)
    ensures KeyAfter(inst, want, PlanFor(want, existing), s, k) <==> KeyPlanned(inst, want, existing, s, k)
  {
    hide Has;
    hide KeyOfStale;
    hide SameKey;
    hide Normalize;
    var prior := existing[0];
    assert prior in existing;
    StaleExactly(want, existing, k);
    StaleExactly(want, existing, prior);
    HasOwn(existing, prior);
    PlanCases(want, existing);
  }

  lemma HasOwn(s: Store, r: Record)
    requires r in s
    ensures Has(s, r)
  {
    assert SameKey(r, r);
  }

  lemma HoldsExactly(want: Record, existing: Store)
    requires forall r :: r in existing ==> Alike(want, r)
    ensures HoldsExact(want, existing) <==> Has(existing, want)
  {
  }

  /** Key by key, what two rivals leave. */
  lemma RivalsLeave(
    a: Instance, b: Instance, wantA: Record, wantB: Record, existing: Store, s: Store, s1: Store, s2: Store)
    requires Rivals(a, b, wantA, wantB) && IsData(wantA.rtype)
    requires existing != [] && forall r :: r in existing ==> Alike(wantA, r)
    requires forall k :: Alike(wantA, k) ==> (Has(s, k) <==> Has(existing, k))
    requires forall k :: Alike(wantA, k) ==> (Has(s1, k) <==> KeyPlanned(a, wantA, existing, s, k))
    requires forall k :: Alike(wantA, k) ==> (Has(s2, k) <==> KeyPlanned(b, wantB, existing, s1, k))
    ensures Has(s2, wantA) && Has(s2, wantB) <==> KeepsBoth(a, b, wantA, wantB, existing)
  {
    hide Has;
    hide Normalize;
    var prior := existing[0];
    assert prior in existing && Alike(wantA, prior) && Alike(wantA, wantA) && Alike(wantA, wantB);
    HoldsExactly(wantA, existing);
    HoldsExactly(wantB, existing);
    HasOwn(existing, prior);
    assert Has(s1, prior) <==> KeyPlanned(a, wantA, existing, s, prior);
    assert Has(s1, wantA) <==> KeyPlanned(a, wantA, existing, s, wantA);
    assert Has(s1, wantB) <==> KeyPlanned(a, wantA, existing, s, wantB);
    assert Has(s2, wantA) <==> KeyPlanned(b, wantB, existing, s1, wantA);
    assert Has(s2, wantB) <==> KeyPlanned(b, wantB, existing, s1, wantB);
  }

  lemma FreshAdds(cfg: Config, env: Env, inst: Instance, want: Record, meta: Meta, owned: bool, w: World, k: Record)
    requires Quiet(env) && (Has(At(w.stores, inst.identity), k) || k == want)
    ensures Has(At(CarryOut(cfg, env, inst, want, meta, owned, Fresh, w).w.stores, inst.identity), k)
  {
    hide Has;
    hide EnsureMarker;
    var c := Call(inst.identity, Create(want));
    var w1 := Perform(w, env, c);
    QuietAt(w, env, c);
    FreshResult(cfg, env, inst, want, meta, owned, w);
    CreateKeys(At(w.stores, inst.identity), want, k);
    MarkerOnlyAdds(cfg, env, inst, want.host, meta, owned, w1);
    HasGrows(At(w1.stores, inst.identity), At(EnsureMarker(cfg, env, inst, want.host, meta, owned, w1).stores, inst.identity), k);
  }

  lemma HasGrows(s: Store, t: Store, k: Record)
    requires Has(s, k) && forall r :: r in s ==> r in t
    ensures Has(t, k)
  {
  }

  /** The records a snapshot shows for a host whose wanted type nothing keeps out. */
  lemma ShownAlike(want: Record, s0: Store, s: Store)
    requires !Clashes(want, s0) && Agree(want, s0, s)
    ensures var existing := DataAt(s0, Normalize(want.host));
            && (forall r :: r in existing ==> Alike(want, r))
            && (forall k :: Alike(want, k) ==> (Has(s, k) <==> Has(existing, k)))
  {
    var existing := DataAt(s0, Normalize(want.host));
    forall k | Alike(want, k) ensures Has(s, k) <==> Has(existing, k) {
      if Has(s, k) {
        var r :| r in s && SameKey(r, k);
        assert Relevant(want, r);
      }
      if Has(existing, k) {
        var r :| r in existing && SameKey(r, k);
        assert Relevant(want, r);
      }
    }
  }

  /** Two jobs, one after the other, on the snapshot `s0`; `s` is the store when their turn comes. */
  lemma RivalPlans(
    cfg: Config, env: Env, a: Instance, b: Instance, wantA: Record, wantB: Record, metaA: Meta, metaB: Meta,
    owned: bool, s0: Store, w: World)
    requires Quiet(env) && Rivals(a, b, wantA, wantB)
    requires !Clashes(wantA, s0) && Agree(wantA, s0, At(w.stores, a.identity))
    ensures var existing := DataAt(s0, Normalize(wantA.host));
            var w1 := CarryOut(cfg, env, a, wantA, metaA, owned, PlanFor(wantA, existing), w).w;
            var w2 := CarryOut(cfg, env, b, wantB, metaB, owned, PlanFor(wantB, existing), w1).w;
            var t := At(w2.stores, a.identity);
            Has(t, wantA) && Has(t, wantB) <==> KeepsBoth(a, b, wantA, wantB, existing)
  {
    hide Has;
    hide CarryOut;
    hide Agree;
    hide Clashes;
    hide Normalize;
    hide KeyPlanned;
    hide KeepsBoth;
    hide KeyAfter;
    var existing := DataAt(s0, Normalize(wantA.host));
    var w1 := CarryOut(cfg, env, a, wantA, metaA, owned, PlanFor(wantA, existing), w).w;
    var w2 := CarryOut(cfg, env, b, wantB, metaB, owned, PlanFor(wantB, existing), w1).w;
    var s, s1, s2 := At(w.stores, a.identity), At(w1.stores, a.identity), At(w2.stores, a.identity);
    ShownAlike(wantA, s0, s);
    if existing == [] {
      FreshAdds(cfg, env, a, wantA, metaA, owned, w, wantA);
      FreshAdds(cfg, env, b, wantB, metaB, owned, w1, wantA);
      FreshAdds(cfg, env, b, wantB, metaB, owned, w1, wantB);
      EmptyKeeps(a, b, wantA, wantB);
    } else {
      assert existing[0] in existing && Alike(wantA, existing[0]);
      forall k | Alike(wantA, k) ensures Has(s1, k) <==> KeyPlanned(a, wantA, existing, s, k) {
        CarryKeys(cfg, env, a, wantA, metaA, owned, PlanFor(wantA, existing), w, k);
        PlanKeys(a, wantA, existing, s, k);
      }
      forall k | Alike(wantA, k) ensures Has(s2, k) <==> KeyPlanned(b, wantB, existing, s1, k) {
        CarryKeys(cfg, env, b, wantB, metaB, owned, PlanFor(wantB, existing), w1, k);
        PlanKeys(b, wantB, existing, s1, k);
      }
      RivalsLeave(a, b, wantA, wantB, existing, s, s1, s2);
    }
  }

  lemma EmptyKeeps(a: Instance, b: Instance, wantA: Record, wantB: Record)
    ensures KeepsBoth(a, b, wantA, wantB, [])
    ensures PlanFor(wantA, []) == Fresh && PlanFor(wantB, []) == Fresh
  {
  }

  // ---- In a cycle ----

  /** Two writers, one backend, and a hint that gives both the same type. */
  ghost predicate Rivalry(reg: Registry, h: Hostname, a: Instance, b: Instance) {
    Writers(reg, h) == [a, b] && a.identity == b.identity && HintsType(h)
  }

  lemma RivalsWant(h: Hostname, a: Instance, b: Instance)
    requires HintsType(h) && a.identity == b.identity
    ensures Rivals(a, b, WantedRecord(h, a), WantedRecord(h, b))
    ensures WantedRecord(h, a).host == h.name
  {
  }

  ghost function BothJobs(cfg: Config, env: Env, snap: Snapshot, h: Hostname, a: Instance, b: Instance, st: Progress): Progress {
    EnsureJob(cfg, env, snap, Job(h, Some(b)), EnsureJob(cfg, env, snap, Job(h, Some(a)), st))
  }

  lemma RivalJobs(
    cfg: Config, env: Env, snap: Snapshot, h: Hostname, a: Instance, b: Instance, stores0: map<Identity, Store>, st: Progress)
    requires Quiet(env) && !cfg.dryRun && HintsType(h) && a.identity == b.identity && st.alive
    requires Mirrors(snap, stores0, a) && Mirrors(snap, stores0, b)
    requires !JobDoomed(Job(h, Some(a)), stores0) && !JobDoomed(Job(h, Some(b)), stores0)
    requires var s0 := At(stores0, a.identity);
             !Clashes(WantedRecord(h, a), s0) && Agree(WantedRecord(h, a), s0, At(st.w.stores, a.identity))
    ensures var t := At(BothJobs(cfg, env, snap, h, a, b, st).w.stores, a.identity);
            Has(t, WantedRecord(h, a)) && Has(t, WantedRecord(h, b))
            <==> KeepsBoth(a, b, WantedRecord(h, a), WantedRecord(h, b), DataAt(At(stores0, a.identity), Normalize(h.name)))
  {
    hide Has;
    hide CarryOut;
    hide EnsureWrite;
    hide Agree;
    hide Clashes;
    hide KeepsBoth;
    hide WantedMeta;
    hide HintsMeta;
    RivalsWant(h, a, b);
    var metaA := WantedMeta(h, st.rec);
    var metaB := WantedMeta(h, Unused(h, st.rec));
    var s0 := At(stores0, a.identity);
    var w1 := EnsureWrite(cfg, env, snap, h, a, metaA, st.w).w;
    JobStep(cfg, env, snap, Job(h, Some(a)), metaA, stores0, st.w);
    JobStep(cfg, env, snap, Job(h, Some(b)), metaB, stores0, w1);
    RivalPlans(cfg, env, a, b, WantedRecord(h, a), WantedRecord(h, b), metaA, metaB,
               Marked(s0, h.name, cfg.instanceID), s0, st.w);
  }

  /** The jobs of other hosts, and those at other backends, leave this one as it is. */
  lemma {:induction false} OthersFrame(
    cfg: Config, env: Env, snap: Snapshot, jobs: seq<Job>, st: Progress, h: Hostname, inst: Instance)
    requires Quiet(env) && ValidName(h)
    requires forall job :: job in jobs ==>
               ValidName(job.host) && (SameBackend(job, Job(h, Some(inst))) ==> Normalize(job.host.name) != Normalize(h.name))
    ensures Agree(WantedRecord(h, inst), At(st.w.stores, inst.identity),
                  At(EnsureJobs(cfg, env, snap, jobs, st).w.stores, inst.identity))
    decreases |jobs|
  {
    hide EnsureWrite;
    hide ValidName;
    hide Normalize;
    if jobs != [] {
      var n := |jobs| - 1;
      assert jobs[n] in jobs && forall job :: job in jobs[..n] ==> job in jobs;
      OthersFrame(cfg, env, snap, jobs[..n], st, h, inst);
      var st1 := EnsureJobs(cfg, env, snap, jobs[..n], st);
      if jobs[n].writer.Some? {
        JobFrame(cfg, env, snap, jobs[n].host, jobs[n].writer.value, WantedMeta(jobs[n].host, st1.rec), st1.w, h, inst);
      }
    }
  }

  lemma HostApart(reg: Registry, found: Found, x: string, k: string)
    requires WellFound(found) && x in found && k in found && x != k
    ensures forall job :: job in HostJobs(reg, found[x]) ==>
              ValidName(job.host) && Normalize(job.host.name) != Normalize(found[k].name)
  {
    FoundName(found, x);
    FoundName(found, k);
  }

  lemma {:induction false} HostsApart(reg: Registry, found: Found, order: seq<string>, k: string)
    requires WellFound(found) && k in found && k !in order && forall x :: x in order ==> x in found
    ensures forall job :: job in JobsFor(reg, found, order) ==>
              ValidName(job.host) && Normalize(job.host.name) != Normalize(found[k].name)
    decreases |order|
  {
    hide HostJobs;
    hide WellFound;
    if order != [] {
      var n := |order| - 1;
      assert order[n] in order && forall x :: x in order[..n] ==> x in order;
      HostsApart(reg, found, order[..n], k);
      HostApart(reg, found, order[n], k);
    }
  }

  lemma RivalsJobs(cfg: Config, env: Env, snap: Snapshot, reg: Registry, h: Hostname, a: Instance, b: Instance, st: Progress)
    requires Writers(reg, h) == [a, b]
    ensures EnsureJobs(cfg, env, snap, HostJobs(reg, h), st) == BothJobs(cfg, env, snap, h, a, b, st)
  {
    hide EnsureJob;
    var jobs := [Job(h, Some(a)), Job(h, Some(b))];
    assert HostJobs(reg, h) == jobs;
    assert jobs[..1] == [Job(h, Some(a))] && jobs[..1][..0] == [];
    assert EnsureJobs(cfg, env, snap, jobs[..1], st) == EnsureJob(cfg, env, snap, Job(h, Some(a)), st);
  }

  /** Of all the jobs, those before and those after the two leave the host as it is. */
  lemma {:induction false} RivalsAmongJobs(
    cfg: Config, env: Env, snap: Snapshot, reg: Registry, found: Found, order: seq<string>, k: string,
    a: Instance, b: Instance, st0: Progress)
    returns (st: Progress)
    requires Quiet(env) && WellFound(found) && k in order && (forall x :: x in order ==> x in found)
    requires forall i, j :: 0 <= i < j < |order| ==> order[i] != order[j]
    requires Writers(reg, found[k]) == [a, b] && EnsureJobs(cfg, env, snap, JobsFor(reg, found, order), st0).alive
    ensures st.alive
    ensures var want, id := WantedRecord(found[k], a), a.identity;
            && Agree(want, At(st0.w.stores, id), At(st.w.stores, id))
            && Agree(want, At(BothJobs(cfg, env, snap, found[k], a, b, st).w.stores, id),
                     At(EnsureJobs(cfg, env, snap, JobsFor(reg, found, order), st0).w.stores, id))
    decreases |order|
  {
    hide HostJobs;
    hide Normalize;
    hide WellFound;
    hide BothJobs;
    hide EnsureJobs;
    hide JobsFor;
    hide WantedRecord;
    hide Relevant;
    hide Writers;
    var n := |order| - 1;
    var before, last := order[..n], order[n];
    assert order == before + [last];
    assert forall x :: x in before ==> x in order;
    JobsNext(cfg, env, snap, reg, found, before, last, st0);
    var st1 := EnsureJobs(cfg, env, snap, JobsFor(reg, found, before), st0);
    if !st1.alive { DeadEnsures(cfg, env, snap, HostJobs(reg, found[last]), st1); }
    FoundValid(found, k);
    if last == k {
      st := st1;
      HostsApart(reg, found, before, k);
      OthersFrame(cfg, env, snap, JobsFor(reg, found, before), st0, found[k], a);
      RivalsJobs(cfg, env, snap, reg, found[k], a, b, st1);
    } else {
      st := RivalsAmongJobs(cfg, env, snap, reg, found, before, k, a, b, st0);
      HostApart(reg, found, last, k);
      OthersFrame(cfg, env, snap, HostJobs(reg, found[last]), st1, found[k], a);
    }
  }

  lemma FoundValid(found: Found, k: string)
    requires WellFound(found) && k in found
    ensures ValidName(found[k])
  {
  }

  /** The two jobs have the host to themselves: nothing else in a quiet cycle touches it. */
  lemma RivalsTurn(
    cfg: Config, env: Env, reg: Registry, found: Found, o: Orders, proc: Proc, w: World, k: string, a: Instance, b: Instance)
    returns (st: Progress)
    requires Quiet(env) && Regular(cfg, reg, found, o, proc) && k in found && Rivalry(reg, found[k], a, b)
    requires Survivable(reg, found, w.stores)
    ensures st.alive && !JobDoomed(Job(found[k], Some(a)), w.stores) && !JobDoomed(Job(found[k], Some(b)), w.stores)
    ensures var snap := TakeSnapshot(env, reg, w).1;
            && Mirrors(snap, w.stores, a) && Mirrors(snap, w.stores, b)
            && (var want, id := WantedRecord(found[k], a), a.identity;
                && Agree(want, At(w.stores, id), At(st.w.stores, id))
                && Agree(want, At(BothJobs(cfg, env, snap, found[k], a, b, st).w.stores, id),
                         At(Cycle(cfg, env, reg, found, o, proc, w).w.stores, id)))
  {
    hide Agree;
    hide BothJobs;
    hide EnsureJobs;
    hide HostJobs;
    hide WellFound;
    hide WantedRecord;
    hide CleanAll;
    hide TakeSnapshot;
    hide Tripped;
    var (w1, snap) := TakeSnapshot(env, reg, w);
    QuietSnapshot(env, reg, w);
    WritersPart(reg, found[k]);
    assert a in Writers(reg, found[k]) && b in Writers(reg, found[k]);
    QuietOutlives(cfg, env, reg, found, o, proc, w);
    st := RivalsAmongJobs(cfg, env, snap, reg, found, o.hosts, k, a, b, Progress(w1, proc.rec, [], true));
    var id, want := a.identity, WantedRecord(found[k], a);
    var last := EnsureJobs(cfg, env, snap, JobsFor(reg, found, o.hosts), Progress(w1, proc.rec, [], true));
    if cfg.cleanup && !Tripped(proc.known, found) {
      CleanupKeepsJobs(cfg, env, reg, found, o, proc, snap, last.w);
      var _ := JobOf(reg, found, o.hosts, k, a);
      assert JobUntouched(Job(found[k], Some(a)), last.w.stores, Cycle(cfg, env, reg, found, o, proc, w).w.stores);
      AgreeOn(want, At(BothJobs(cfg, env, snap, found[k], a, b, st).w.stores, id), At(last.w.stores, id),
              At(Cycle(cfg, env, reg, found, o, proc, w).w.stores, id));
    }
  }

  lemma AgreeOn(want: Record, s: Store, t: Store, u: Store)
    requires Agree(want, s, t) && Agree(want, t, u)
    ensures Agree(want, s, u)
  {
  }

  /**
   * The other side of Converges.  Of a host that a hint wants twice in one type on one backend, a cycle
   * without failures leaves both records exactly when the records found leave room for both.
   */
  lemma BothServedExactlyWhen(
    cfg: Config, env: Env, reg: Registry, found: Found, o: Orders, proc: Proc, w: World, k: string, a: Instance, b: Instance)
    requires Quiet(env) && Regular(cfg, reg, found, o, proc) && k in found && Rivalry(reg, found[k], a, b)
    requires Survivable(reg, found, w.stores)
    requires !Clashes(WantedRecord(found[k], a), At(w.stores, a.identity))
    ensures var t := At(Cycle(cfg, env, reg, found, o, proc, w).w.stores, a.identity);
            var wantA, wantB := WantedRecord(found[k], a), WantedRecord(found[k], b);
            Has(t, wantA) && Has(t, wantB)
            <==> KeepsBoth(a, b, wantA, wantB, DataAt(At(w.stores, a.identity), Normalize(found[k].name)))
  {
    hide Cycle;
    hide Agree;
    hide Has;
    hide KeepsBoth;
    hide EnsureJob;
    hide Mirrors;
    hide Clashes;
    hide Writers;
    hide TakeSnapshot;
    var h, id := found[k], a.identity;
    var snap := TakeSnapshot(env, reg, w).1;
    var st := RivalsTurn(cfg, env, reg, found, o, proc, w, k, a, b);
    RivalJobs(cfg, env, snap, h, a, b, w.stores, st);
    RivalsWant(h, a, b);
    RivalsAgree(WantedRecord(h, a), WantedRecord(h, b), At(BothJobs(cfg, env, snap, h, a, b, st).w.stores, id),
                At(Cycle(cfg, env, reg, found, o, proc, w).w.stores, id));
  }

  lemma RivalsAgree(wantA: Record, wantB: Record, s: Store, t: Store)
    requires Agree(wantA, s, t) && wantA.host == wantB.host && wantA.rtype == wantB.rtype
    ensures Has(s, wantA) <==> Has(t, wantA)
    ensures Has(s, wantB) <==> Has(t, wantB)
  {
  }

  // ---- They alternate for ever ----

  /** The wanted record, and no data of the host beside it. */
  ghost predicate Alone(want: Record, s: Store) {
    Has(s, want) && forall r :: r in s && DataOf(want, r) ==> SameKey(r, want)
  }

  /** Which keys of the host's data the store has: just this one. */
  ghost predicate OnlyKey(want: Record, s: Store) {
    forall k :: DataOf(want, k) ==> (Has(s, k) <==> SameKey(k, want))
  }

  lemma AloneIsOnlyKey(want: Record, s: Store)
    requires IsData(want.rtype)
    ensures Alone(want, s) <==> OnlyKey(want, s)
  {
    if OnlyKey(want, s) {
      assert DataOf(want, want) && SameKey(want, want);
      forall r | r in s && DataOf(want, r) ensures SameKey(r, want) { HasOwn(s, r); }
    }
  }

  /** All records found have the key of `x`, which is of the wanted type and not outdated. */
  ghost predicate FoundOnly(want: Record, existing: Store, x: Record) {
    existing != [] && Alike(want, x) && !Outdated(want, x) && forall r :: r in existing ==> SameKey(r, x)
  }

  lemma NothingStale(want: Record, existing: Store, x: Record)
    requires FoundOnly(want, existing, x)
    ensures forall k :: !KeyOfStale(want.host, StaleOf(want, existing), k)
    ensures forall r :: r in existing ==> Alike(want, r)
  {
  }

  lemma KeepLeaves(inst: Instance, want: Record, existing: Store, x: Record, s: Store, t: Store)
    requires FoundOnly(want, existing, want) && OnlyKey(x, s) && Alike(want, x)
    requires forall k :: DataOf(want, k) ==> (Has(t, k) <==> KeyAfter(inst, want, PlanFor(want, existing), s, k))
    ensures OnlyKey(x, t)
  {
    hide Has;
    hide KeyOfStale;
    NothingStale(want, existing, want);
    PlanCases(want, existing);
    assert existing[0] in existing && Exact(want, existing[0]);
  }

  lemma ChangeMoves(inst: Instance, want: Record, existing: Store, x: Record, s: Store, t: Store)
    requires FoundOnly(want, existing, x) && x.target != want.target && OnlyKey(x, s)
    requires forall k :: DataOf(want, k) ==> (Has(t, k) <==> KeyAfter(inst, want, PlanFor(want, existing), s, k))
    ensures OnlyKey(want, t)
  {
    hide Has;
    hide KeyOfStale;
    NothingStale(want, existing, x);
    PlanCases(want, existing);
    assert existing[0] in existing;
    assert forall r :: r in existing ==> !Exact(want, r);
    assert PlanFor(want, existing) == Change(StaleOf(want, existing), existing[0]);
    assert Has(s, existing[0]);
  }

  lemma AloneFound(want: Record, x: Record, s0: Store, s: Store)
    requires Alike(want, x) && !Outdated(want, x) && Alone(x, s0) && Agree(want, s0, s)
    ensures FoundOnly(want, DataAt(s0, Normalize(want.host)), x)
    ensures OnlyKey(x, s)
  {
    var existing := DataAt(s0, Normalize(want.host));
    var r :| r in s0 && SameKey(r, x);
    assert r in existing;
    assert Alone(x, s) by {
      assert Relevant(want, r);
    }
    AloneIsOnlyKey(x, s);
  }

  /** Key by key, `t` is what the two plans made on `existing` leave of `s`. */
  ghost predicate Follows(
    a: Instance, b: Instance, wantA: Record, wantB: Record, existing: Store, s: Store, t: Store)
  {
    exists mid ::
      && Reached(a, wantA, existing, s, mid)
      && Reached(b, wantB, existing, mid, t)
  }

  ghost predicate Reached(inst: Instance, want: Record, existing: Store, s: Store, t: Store) {
    forall k :: DataOf(want, k) ==> (Has(t, k) <==> KeyAfter(inst, want, PlanFor(want, existing), s, k))
  }

  lemma PlanReaches(
    cfg: Config, env: Env, inst: Instance, want: Record, meta: Meta, owned: bool, existing: Store, w: World)
    requires Quiet(env)
    ensures Reached(inst, want, existing, At(w.stores, inst.identity),
                    At(CarryOut(cfg, env, inst, want, meta, owned, PlanFor(want, existing), w).w.stores, inst.identity))
  {
    hide Has;
    hide CarryOut;
    hide KeyAfter;
    hide PlanFor;
    var t := At(CarryOut(cfg, env, inst, want, meta, owned, PlanFor(want, existing), w).w.stores, inst.identity);
    forall k | DataOf(want, k)
      ensures Has(t, k) <==> KeyAfter(inst, want, PlanFor(want, existing), At(w.stores, inst.identity), k)
    {
      CarryKeys(cfg, env, inst, want, meta, owned, PlanFor(want, existing), w, k);
    }
  }

  /** Only the data keys of the host matter at either end. */
  lemma FollowsAgrees(
    a: Instance, b: Instance, wantA: Record, wantB: Record, existing: Store, s: Store, s2: Store, t: Store, t2: Store)
    requires Follows(a, b, wantA, wantB, existing, s, t) && Rivals(a, b, wantA, wantB)
    requires Agree(wantA, s, s2) && Agree(wantA, t, t2)
    requires forall r :: r in existing ==> DataOf(wantA, r)
    ensures Follows(a, b, wantA, wantB, existing, s2, t2)
  {
    hide KeyAfter;
    hide Has;
    hide PlanFor;
    var mid :| Reached(a, wantA, existing, s, mid) && Reached(b, wantB, existing, mid, t);
    forall k | DataOf(wantA, k)
      ensures Has(mid, k) <==> KeyAfter(a, wantA, PlanFor(wantA, existing), s2, k)
      ensures Has(t2, k) <==> KeyAfter(b, wantB, PlanFor(wantB, existing), mid, k)
    {
      KeyAfterAgrees(a, wantA, existing, s, s2, k);
      DataAgrees(wantA, t, t2, k);
    }
    assert Reached(a, wantA, existing, s2, mid) && Reached(b, wantB, existing, mid, t2);
  }

  lemma DataAgrees(want: Record, s: Store, t: Store, k: Record)
    requires Agree(want, s, t) && DataOf(want, k)
    ensures Has(s, k) <==> Has(t, k)
  {
    HasAgrees(want, k, s, t);
  }

  lemma KeyAfterAgrees(inst: Instance, want: Record, existing: Store, s: Store, t: Store, k: Record)
    requires Agree(want, s, t) && DataOf(want, k) && forall r :: r in existing ==> DataOf(want, r)
    ensures KeyAfter(inst, want, PlanFor(want, existing), s, k) <==> KeyAfter(inst, want, PlanFor(want, existing), t, k)
  {
    hide Has;
    hide KeyOfStale;
    PlanCases(want, existing);
    DataAgrees(want, s, t, k);
    if PlanFor(want, existing).Change? { DataAgrees(want, s, t, PlanFor(want, existing).prior); }
  }

  /** On a store with one of the two records, the two plans leave just the other. */
  lemma FollowsSwaps(a: Instance, b: Instance, wantA: Record, wantB: Record, s: Store, t: Store)
    requires Rivals(a, b, wantA, wantB) && wantA.target != wantB.target && IsData(wantA.rtype)
    requires Follows(a, b, wantA, wantB, DataAt(s, Normalize(wantA.host)), s, t)
    ensures Alone(wantA, s) ==> Alone(wantB, t)
    ensures Alone(wantB, s) ==> Alone(wantA, t)
  {
    hide Has;
    hide Normalize;
    hide KeyAfter;
    hide Alone;
    hide OnlyKey;
    hide FoundOnly;
    var existing := DataAt(s, Normalize(wantA.host));
    var mid :| Reached(a, wantA, existing, s, mid) && Reached(b, wantB, existing, mid, t);
    AloneIsOnlyKey(wantA, t);
    AloneIsOnlyKey(wantB, t);
    if Alone(wantA, s) {
      AloneFound(wantA, wantA, s, s);
      KeepLeaves(a, wantA, existing, wantA, s, mid);
      AloneFound(wantB, wantA, s, s);
      ChangeMoves(b, wantB, existing, wantA, mid, t);
    }
    if Alone(wantB, s) {
      AloneFound(wantA, wantB, s, s);
      ChangeMoves(a, wantA, existing, wantB, s, mid);
      AloneFound(wantB, wantB, s, s);
      KeepLeaves(b, wantB, existing, wantA, mid, t);
    }
  }

  /** With both records there and nothing outdated, the two plans leave the host's data as they are. */
  lemma FollowsRests(a: Instance, b: Instance, wantA: Record, wantB: Record, s: Store, t: Store, k: Record)
    requires Rivals(a, b, wantA, wantB) && IsData(wantA.rtype) && DataOf(wantA, k)
    requires Follows(a, b, wantA, wantB, DataAt(s, Normalize(wantA.host)), s, t)
    requires Has(s, wantA) && Has(s, wantB) && !Clashes(wantA, s) && NoOutdated(wantA, s) && NoOutdated(wantB, s)
    ensures Has(t, k) <==> Has(s, k)
  {
    hide Normalize;
    var existing := DataAt(s, Normalize(wantA.host));
    var mid :| Reached(a, wantA, existing, s, mid) && Reached(b, wantB, existing, mid, t);
    HeldRests(a, wantA, s, s, mid, k);
    HeldRests(b, wantB, s, mid, t, k);
  }

  lemma HeldRests(inst: Instance, want: Record, found: Store, s: Store, t: Store, k: Record)
    requires Reached(inst, want, DataAt(found, Normalize(want.host)), s, t) && IsData(want.rtype) && DataOf(want, k)
    requires Has(found, want) && !Clashes(want, found) && NoOutdated(want, found)
    ensures Has(t, k) <==> Has(s, k)
  {
    hide Normalize;
    var existing := DataAt(found, Normalize(want.host));
    PlanCases(want, existing);
    var r :| r in found && SameKey(r, want);
    assert r in existing && Exact(want, r);
    assert forall x :: x in StaleOf(want, existing) ==> false;
  }

  lemma RivalJobsFollow(
    cfg: Config, env: Env, snap: Snapshot, h: Hostname, a: Instance, b: Instance, stores0: map<Identity, Store>, st: Progress)
    requires Quiet(env) && !cfg.dryRun && HintsType(h) && a.identity == b.identity && st.alive
    requires Mirrors(snap, stores0, a) && Mirrors(snap, stores0, b)
    requires !JobDoomed(Job(h, Some(a)), stores0) && !JobDoomed(Job(h, Some(b)), stores0)
    ensures var s0, s := At(stores0, a.identity), At(st.w.stores, a.identity);
            var t := At(BothJobs(cfg, env, snap, h, a, b, st).w.stores, a.identity);
            Follows(a, b, WantedRecord(h, a), WantedRecord(h, b), DataAt(s0, Normalize(h.name)), s, t)
  {
    hide CarryOut;
    hide EnsureWrite;
    hide WantedMeta;
    hide HintsMeta;
    hide Reached;
    hide PlanFor;
    RivalsWant(h, a, b);
    var wantA, wantB := WantedRecord(h, a), WantedRecord(h, b);
    var metaA := WantedMeta(h, st.rec);
    var metaB := WantedMeta(h, Unused(h, st.rec));
    var s0 := At(stores0, a.identity);
    var existing, owned := DataAt(s0, Normalize(h.name)), Marked(s0, h.name, cfg.instanceID);
    var w1 := EnsureWrite(cfg, env, snap, h, a, metaA, st.w).w;
    JobStep(cfg, env, snap, Job(h, Some(a)), metaA, stores0, st.w);
    JobStep(cfg, env, snap, Job(h, Some(b)), metaB, stores0, w1);
    PlanReaches(cfg, env, a, wantA, metaA, owned, existing, st.w);
    PlanReaches(cfg, env, b, wantB, metaB, owned, existing, w1);
    assert Reached(a, wantA, existing, At(st.w.stores, a.identity), At(w1.stores, a.identity));
  }

  /** What a quiet cycle does to the data of a host with two rivals. */
  lemma RivalsFollow(
    cfg: Config, env: Env, reg: Registry, found: Found, o: Orders, proc: Proc, w: World, k: string, a: Instance, b: Instance)
    requires Quiet(env) && Regular(cfg, reg, found, o, proc) && k in found && Rivalry(reg, found[k], a, b)
    requires Survivable(reg, found, w.stores)
    ensures var s, t := At(w.stores, a.identity), At(Cycle(cfg, env, reg, found, o, proc, w).w.stores, a.identity);
            Follows(a, b, WantedRecord(found[k], a), WantedRecord(found[k], b), DataAt(s, Normalize(found[k].name)), s, t)
  {
    hide Cycle;
    hide Agree;
    hide Follows;
    hide BothJobs;
    hide Mirrors;
    hide Writers;
    hide TakeSnapshot;
    hide Survivable;
    hide JobDoomed;
    var h, id := found[k], a.identity;
    var snap := TakeSnapshot(env, reg, w).1;
    var st := RivalsTurn(cfg, env, reg, found, o, proc, w, k, a, b);
    RivalsWant(h, a, b);
    RivalJobsFollow(cfg, env, snap, h, a, b, w.stores, st);
    var s := At(w.stores, id);
    AgreeTurns(WantedRecord(h, a), s, At(st.w.stores, id));
    FollowsAgrees(a, b, WantedRecord(h, a), WantedRecord(h, b), DataAt(s, Normalize(h.name)), At(st.w.stores, id), s,
                  At(BothJobs(cfg, env, snap, h, a, b, st).w.stores, id), At(Cycle(cfg, env, reg, found, o, proc, w).w.stores, id));
  }

  lemma AgreeTurns(want: Record, s: Store, t: Store)
    requires Agree(want, s, t)
    ensures Agree(want, t, s)
  {
  }

  /** A quiet cycle that finds one of the two records alone leaves the other alone. */
  lemma RivalsAlternate(
    cfg: Config, env: Env, reg: Registry, found: Found, o: Orders, proc: Proc, w: World, k: string, a: Instance, b: Instance)
    requires Quiet(env) && Regular(cfg, reg, found, o, proc) && k in found && Rivalry(reg, found[k], a, b)
    requires Survivable(reg, found, w.stores)
    requires var wantA, wantB := WantedRecord(found[k], a), WantedRecord(found[k], b);
             IsData(wantA.rtype) && wantA.target != wantB.target
    ensures var s, t := At(w.stores, a.identity), At(Cycle(cfg, env, reg, found, o, proc, w).w.stores, a.identity);
            && (Alone(WantedRecord(found[k], a), s) ==> Alone(WantedRecord(found[k], b), t))
            && (Alone(WantedRecord(found[k], b), s) ==> Alone(WantedRecord(found[k], a), t))
  {
    hide Cycle;
    hide Alone;
    hide Follows;
    hide Survivable;
    RivalsFollow(cfg, env, reg, found, o, proc, w, k, a, b);
    RivalsWant(found[k], a, b);
    FollowsSwaps(a, b, WantedRecord(found[k], a), WantedRecord(found[k], b), At(w.stores, a.identity),
                 At(Cycle(cfg, env, reg, found, o, proc, w).w.stores, a.identity));
  }

  // ---- Runs ----

  /** Each pass is a quiet cycle from where the one before ended, over the same workloads, and outlived. */
  ghost predicate QuietRun(cfg: Config, reg: Registry, found: Found, passes: seq<Pass>) {
    forall i :: 0 < i < |passes| ==> QuietCycle(cfg, reg, found, passes[i - 1], passes[i])
  }

  ghost predicate QuietCycle(cfg: Config, reg: Registry, found: Found, p: Pass, q: Pass) {
    q.alive && exists env, o :: Quiet(env) && OrdersFit(o, p.proc, found) && q == Cycle(cfg, env, reg, found, o, p.proc, p.w)
  }

  ghost predicate RegularFrom(cfg: Config, reg: Registry, found: Found, proc: Proc) {
    exists o :: Regular(cfg, reg, found, o, proc)
  }

  /** One cycle of a run. */
  lemma RunStep(cfg: Config, reg: Registry, found: Found, p: Pass, q: Pass) returns (env: Env, o: Orders)
    requires QuietCycle(cfg, reg, found, p, q) && RegularFrom(cfg, reg, found, p.proc)
    ensures Quiet(env) && Regular(cfg, reg, found, o, p.proc) && q == Cycle(cfg, env, reg, found, o, p.proc, p.w)
    ensures Survivable(reg, found, p.w.stores) && RegularFrom(cfg, reg, found, q.proc)
  {
    hide Cycle;
    hide Survivable;
    hide Regular;
    var o1 :| Regular(cfg, reg, found, o1, p.proc);
    env, o :| Quiet(env) && OrdersFit(o, p.proc, found) && q == Cycle(cfg, env, reg, found, o, p.proc, p.w);
    OtherOrders(cfg, reg, found, o1, o, p.proc);
    QuietOutlives(cfg, env, reg, found, o, p.proc, p.w);
    var o3 := SomeOrders(found, q.proc);
    NextRegular(cfg, env, reg, found, o, o3, p.proc, p.w);
  }

  lemma {:induction false} RunRegular(cfg: Config, reg: Registry, found: Found, passes: seq<Pass>)
    requires passes != [] && QuietRun(cfg, reg, found, passes) && RegularFrom(cfg, reg, found, passes[0].proc)
    ensures RegularFrom(cfg, reg, found, passes[|passes| - 1].proc)
    decreases |passes|
  {
    hide QuietCycle;
    hide RegularFrom;
    var n := |passes| - 1;
    if n > 0 {
      RunRegular(cfg, reg, found, passes[..n]);
      assert QuietCycle(cfg, reg, found, passes[n - 1], passes[n]);
      var env, o := RunStep(cfg, reg, found, passes[n - 1], passes[n]);
    }
  }

  /**
   * Unchanged workloads, no failures, and still no rest: from a store with one of the two records alone,
   * the cycles of any run leave the two in turn, and never both.
   */
  lemma {:induction false} RivalsNeverRest(
    cfg: Config, reg: Registry, found: Found, passes: seq<Pass>, k: string, a: Instance, b: Instance, first: bool)
    requires passes != [] && QuietRun(cfg, reg, found, passes) && k in found && Rivalry(reg, found[k], a, b)
    requires RegularFrom(cfg, reg, found, passes[0].proc)
    requires var wantA, wantB := WantedRecord(found[k], a), WantedRecord(found[k], b);
             && IsData(wantA.rtype) && wantA.target != wantB.target
             && Alone(if first then wantA else wantB, At(passes[0].w.stores, a.identity))
    ensures var n := |passes| - 1;
            Alone(WantedRecord(found[k], if first == (n % 2 == 0) then a else b), At(passes[n].w.stores, a.identity))
    decreases |passes|
  {
    hide Cycle;
    hide Alone;
    hide Regular;
    hide RegularFrom;
    hide Rivalry;
    hide QuietCycle;
    hide Survivable;
    hide WantedRecord;
    var n := |passes| - 1;
    if n > 0 {
      RivalsNeverRest(cfg, reg, found, passes[..n], k, a, b, first);
      RunRegular(cfg, reg, found, passes[..n]);
      var p, q := passes[n - 1], passes[n];
      assert passes[..n][n - 1] == p && QuietCycle(cfg, reg, found, p, q);
      var env, o := RunStep(cfg, reg, found, p, q);
      RivalsAlternate(cfg, env, reg, found, o, p.proc, p.w, k, a, b);
    }
  }

  /** What the store of a pass has room for. */
  ghost predicate RoomFor(h: Hostname, a: Instance, b: Instance, s: Store) {
    KeepsBoth(a, b, WantedRecord(h, a), WantedRecord(h, b), DataAt(s, Normalize(h.name)))
  }

  ghost predicate HoldsBoth(h: Hostname, a: Instance, b: Instance, s: Store) {
    Has(s, WantedRecord(h, a)) && Has(s, WantedRecord(h, b))
  }

  lemma HeldHasRoom(h: Hostname, a: Instance, b: Instance, s: Store)
    requires HintsType(h) && a.identity == b.identity
    requires HoldsBoth(h, a, b, s) && !Clashes(WantedRecord(h, a), s)
    ensures RoomFor(h, a, b, s)
  {
    hide Normalize;
    RivalsWant(h, a, b);
    var wantA, wantB := WantedRecord(h, a), WantedRecord(h, b);
    var existing := DataAt(s, Normalize(h.name));
    if IsData(wantA.rtype) {
      var x :| x in s && SameKey(x, wantA);
      var y :| y in s && SameKey(y, wantB);
      assert x in existing && Exact(wantA, x) && y in existing && Exact(wantB, y);
    } else {
      assert NoData(wantA, s);
      NoDataFresh(wantA, s);
      PlanCases(wantA, existing);
    }
  }

  /** No data of another type comes in. */
  lemma FollowsUnclashed(a: Instance, b: Instance, wantA: Record, wantB: Record, s: Store, t: Store)
    requires Rivals(a, b, wantA, wantB) && !Clashes(wantA, s)
    requires Follows(a, b, wantA, wantB, DataAt(s, Normalize(wantA.host)), s, t)
    ensures !Clashes(wantA, t)
  {
    hide Normalize;
    hide Reached;
    var existing := DataAt(s, Normalize(wantA.host));
    var mid :| Reached(a, wantA, existing, s, mid) && Reached(b, wantB, existing, mid, t);
    forall r | r in t && DataOf(wantA, r) ensures r.rtype == wantA.rtype {
      HasOwn(t, r);
      if r.rtype != wantA.rtype {
        NoNewTypes(b, wantB, existing, mid, t, r);
        NoNewTypes(a, wantA, existing, s, mid, r);
      }
    }
  }

  lemma NoNewTypes(inst: Instance, want: Record, existing: Store, s: Store, t: Store, k: Record)
    requires Reached(inst, want, existing, s, t) && DataOf(want, k) && k.rtype != want.rtype && Has(t, k)
    ensures Has(s, k)
  {
    hide Has;
    hide KeyOfStale;
    hide PlanFor;
  }

  /** One cycle: both are there afterwards exactly when there was room, and still nothing clashes. */
  lemma RivalsMeetNext(cfg: Config, reg: Registry, found: Found, p: Pass, q: Pass, k: string, a: Instance, b: Instance)
    requires QuietCycle(cfg, reg, found, p, q) && RegularFrom(cfg, reg, found, p.proc)
    requires k in found && Rivalry(reg, found[k], a, b)
    requires !Clashes(WantedRecord(found[k], a), At(p.w.stores, a.identity))
    ensures HoldsBoth(found[k], a, b, At(q.w.stores, a.identity)) <==> RoomFor(found[k], a, b, At(p.w.stores, a.identity))
    ensures !Clashes(WantedRecord(found[k], a), At(q.w.stores, a.identity))
  {
    hide Cycle;
    hide QuietCycle;
    hide RegularFrom;
    hide Survivable;
    hide Follows;
    hide Clashes;
    hide KeepsBoth;
    var env, o := RunStep(cfg, reg, found, p, q);
    RivalsWant(found[k], a, b);
    BothServedExactlyWhen(cfg, env, reg, found, o, p.proc, p.w, k, a, b);
    RivalsFollow(cfg, env, reg, found, o, p.proc, p.w, k, a, b);
    FollowsUnclashed(a, b, WantedRecord(found[k], a), WantedRecord(found[k], b), At(p.w.stores, a.identity),
                     At(q.w.stores, a.identity));
  }

  /**
   * When rivals come to rest.  After a run of cycles both records are there exactly when some cycle of
   * the run found room for both; from then on both stay.
   */
  lemma {:induction false} RivalsMeetExactlyWhen(
    cfg: Config, reg: Registry, found: Found, passes: seq<Pass>, k: string, a: Instance, b: Instance)
    requires |passes| >= 2 && QuietRun(cfg, reg, found, passes) && k in found && Rivalry(reg, found[k], a, b)
    requires RegularFrom(cfg, reg, found, passes[0].proc)
    requires !Clashes(WantedRecord(found[k], a), At(passes[0].w.stores, a.identity))
    ensures var n := |passes| - 1;
            && !Clashes(WantedRecord(found[k], a), At(passes[n].w.stores, a.identity))
            && (HoldsBoth(found[k], a, b, At(passes[n].w.stores, a.identity))
                <==> exists i :: 0 <= i < n && RoomFor(found[k], a, b, At(passes[i].w.stores, a.identity)))
    decreases |passes|
  {
    hide Clashes;
    hide Rivalry;
    hide QuietCycle;
    hide RegularFrom;
    hide RoomFor;
    hide HoldsBoth;
    hide WantedRecord;
    var n := |passes| - 1;
    var p, q := passes[n - 1], passes[n];
    assert QuietCycle(cfg, reg, found, p, q);
    var init := passes[..n];
    assert init[n - 1] == p && forall i :: 0 <= i < n ==> init[i] == passes[i];
    RunRegular(cfg, reg, found, init);
    if n > 1 {
      RivalsMeetExactlyWhen(cfg, reg, found, init, k, a, b);
      RivalsKeepRoom(found[k], reg, a, b, At(p.w.stores, a.identity));
    }
    RivalsMeetNext(cfg, reg, found, p, q, k, a, b);
  }

  lemma RivalsKeepRoom(h: Hostname, reg: Registry, a: Instance, b: Instance, s: Store)
    requires Rivalry(reg, h, a, b) && !Clashes(WantedRecord(h, a), s)
    ensures HoldsBoth(h, a, b, s) ==> RoomFor(h, a, b, s)
  {
    if HoldsBoth(h, a, b, s) { HeldHasRoom(h, a, b, s); }
  }

  /** Once both are there and nothing is outdated, a cycle leaves the host's data as they are. */
  lemma RivalsRest(
    cfg: Config, env: Env, reg: Registry, found: Found, o: Orders, proc: Proc, w: World, k: string, a: Instance, b: Instance,
    r: Record)
    requires Quiet(env) && Regular(cfg, reg, found, o, proc) && k in found && Rivalry(reg, found[k], a, b)
    requires Survivable(reg, found, w.stores)
    requires var s, wantA, wantB := At(w.stores, a.identity), WantedRecord(found[k], a), WantedRecord(found[k], b);
             && IsData(wantA.rtype) && DataOf(wantA, r)
             && HoldsBoth(found[k], a, b, s) && !Clashes(wantA, s) && NoOutdated(wantA, s) && NoOutdated(wantB, s)
    ensures Has(At(Cycle(cfg, env, reg, found, o, proc, w).w.stores, a.identity), r) <==> Has(At(w.stores, a.identity), r)
  {
    hide Cycle;
    hide Follows;
    hide Survivable;
    hide Clashes;
    hide NoOutdated;
    RivalsFollow(cfg, env, reg, found, o, proc, w, k, a, b);
    RivalsWant(found[k], a, b);
    FollowsRests(a, b, WantedRecord(found[k], a), WantedRecord(found[k], b), At(w.stores, a.identity),
                 At(Cycle(cfg, env, reg, found, o, proc, w).w.stores, a.identity), r);
  }

  lemma OtherOrders(cfg: Config, reg: Registry, found: Found, o: Orders, o2: Orders, proc: Proc)
    requires Regular(cfg, reg, found, o, proc) && OrdersFit(o2, proc, found)
    ensures Regular(cfg, reg, found, o2, proc)
  {
  }

  lemma SomeOrders(found: Found, proc: Proc) returns (o: Orders)
    ensures OrdersFit(o, proc, found)
  {
    var hosts := SomeOrder(found.Keys);
    var orphans := SomeOrder(Orphans(proc.known, found));
    o := Orders(hosts, orphans);
  }
}
