/** What the hints of a host and an instance ask for, field by field, and that a cycle writes nothing else. */
module Requests {
  import opened Wrappers
  import opened Names
  import opened Backend
  import opened Model
  import opened Traces
  import opened Settling
  import opened Isolation
  import opened Convergence
  import Own = Ownership

  // ---- Field by field: the hint's where it gives one, and else the instance's ----

  function AskedType(h: Hostname, inst: Instance): RecordType {
    if h.hints.Some? && h.hints.value.rtype.Some? then h.hints.value.rtype.value else inst.rtype
  }

  function AskedTarget(h: Hostname, inst: Instance): string {
    if h.hints.Some? && h.hints.value.target != "" then h.hints.value.target else inst.target
  }

  function AskedTtl(h: Hostname, inst: Instance): int {
    if h.hints.Some? && h.hints.value.ttl > 0 then h.hints.value.ttl else inst.ttl
  }

  function AskedSrv(h: Hostname): Option<SrvData> {
    if h.hints.Some? then h.hints.value.srv else None
  }

  /** The record serves the host. */
  predicate AsksFor(h: Hostname, inst: Instance, r: Record) {
    && Normalize(r.host) == Normalize(h.name)
    && r.rtype == AskedType(h, inst)
    && r.target == AskedTarget(h, inst)
    && (r.rtype.SRV? ==> r.srv == AskedSrv(h))
  }

  /** The record is what a writer sends. */
  predicate WrittenFor(h: Hostname, inst: Instance, r: Record) {
    && r.host == h.name
    && r.rtype == AskedType(h, inst)
    && r.target == AskedTarget(h, inst)
    && r.ttl == AskedTtl(h, inst)
    && r.srv == AskedSrv(h)
  }

  predicate DataFor(h: Hostname, r: Record) {
    IsData(r.rtype) && Normalize(r.host) == Normalize(h.name)
  }

  /** Data of another type than the one asked for are there. */
  ghost predicate Blocked(h: Hostname, inst: Instance, s: Store) {
    exists r :: r in s && DataFor(h, r) && r.rtype != AskedType(h, inst)
  }

  /** An SRV record with the target asked for and other SRV data. */
  predicate Stale(h: Hostname, inst: Instance, r: Record) {
    DataFor(h, r) && AskedType(h, inst).SRV? && r.target == AskedTarget(h, inst) && r.srv != AskedSrv(h)
  }

  /** The data of the host are listed in the order of the store. */
  lemma {:induction false} FirstDataIs(h: Hostname, s: Store)
    ensures DataAt(s, Normalize(h.name)) == [] <==> forall r :: r in s ==> !DataFor(h, r)
    ensures DataAt(s, Normalize(h.name)) != [] ==>
              exists i :: 0 <= i < |s| && DataFor(h, s[i]) && DataAt(s, Normalize(h.name))[0] == s[i]
                       && forall j :: 0 <= j < i ==> !DataFor(h, s[j])
    decreases |s|
  {
    hide Normalize;
    if s != [] {
      var n := |s| - 1;
      assert s == s[..n] + [s[n]];
      FirstDataIs(h, s[..n]);
      var front := DataAt(s[..n], Normalize(h.name));
      if front != [] {
        var i :| 0 <= i < n && DataFor(h, s[..n][i]) && front[0] == s[..n][i] && forall j :: 0 <= j < i ==> !DataFor(h, s[..n][j]);
        assert DataAt(s, Normalize(h.name))[0] == s[i];
        forall j | 0 <= j < i ensures !DataFor(h, s[j]) { assert s[..n][j] == s[j]; }
      } else {
        forall j | 0 <= j < n ensures !DataFor(h, s[j]) { assert s[j] in s[..n]; }
      }
    }
  }

  /** A native update is to be handed the first record although it goes as stale. */
  ghost predicate Misses(h: Hostname, inst: Instance, s: Store) {
    var existing := DataAt(s, Normalize(h.name));
    && inst.nativeUpdate && !Blocked(h, inst, s)
    && existing != [] && Stale(h, inst, existing[0])
    && forall r :: r in existing ==> !AsksFor(h, inst, r)
  }

  /**
   * The record is a marker of the host: named and typed as one, and printed with the metadata of the
   * hints if there are any, and else with none or with what was recovered.
   */
  ghost predicate MarkerFor(id: string, h: Hostname, inst: Instance, rec: map<string, Meta>, r: Record) {
    && r.host == "_dnsweaver." + h.name && r.rtype == TXT && r.ttl == inst.ttl && r.srv == None
    && if h.hints.Some? && h.hints.value.meta != map[] then r.target == Own.MakeValue(id, h.hints.value.meta)
       else || r.target == Own.MakeValue(id, map[])
            || (Normalize(h.name) in rec && r.target == Own.MakeValue(id, rec[Normalize(h.name)]))
  }

  lemma WantedAsAsked(h: Hostname, inst: Instance, r: Record)
    ensures WrittenFor(h, inst, r) <==> r == WantedRecord(h, inst)
    ensures AsksFor(h, inst, r) <==> SameKey(r, WantedRecord(h, inst))
  {
    hide Normalize;
  }

  /** A store serves the host exactly when it has the key that is written. */
  lemma ServedExactly(h: Hostname, inst: Instance, s: Store)
    ensures (exists r :: r in s && AsksFor(h, inst, r)) <==> Has(s, WantedRecord(h, inst))
  {
    hide AsksFor;
    hide SameKey;
    hide WantedRecord;
    forall r ensures AsksFor(h, inst, r) <==> SameKey(r, WantedRecord(h, inst)) { WantedAsAsked(h, inst, r); }
  }

  lemma WantedName(h: Hostname, inst: Instance)
    ensures WantedRecord(h, inst).host == h.name && WantedRecord(h, inst).rtype == AskedType(h, inst)
  {
  }

  lemma BlockedExactly(h: Hostname, inst: Instance, s: Store)
    ensures Blocked(h, inst, s) <==> Clashes(WantedRecord(h, inst), s)
  {
    hide Normalize;
    var want := WantedRecord(h, inst);
    assert forall r :: DataFor(h, r) <==> DataOf(want, r);
  }

  lemma StaleExactly(h: Hostname, inst: Instance, r: Record)
    requires DataFor(h, r)
    ensures Stale(h, inst, r) <==> Outdated(WantedRecord(h, inst), r)
    ensures r.rtype == AskedType(h, inst) ==> (AsksFor(h, inst, r) <==> Exact(WantedRecord(h, inst), r))
  {
    hide Normalize;
  }

  lemma MissesExactly(h: Hostname, inst: Instance, s: Store)
    ensures Misses(h, inst, s)
       <==> UpdateMisses(inst, WantedRecord(h, inst), PlanFor(WantedRecord(h, inst), DataAt(s, Normalize(h.name))))
  {
    hide Normalize;
    hide WantedRecord;
    hide Exact;
    hide Outdated;
    hide AsksFor;
    hide Stale;
    var want, existing := WantedRecord(h, inst), DataAt(s, Normalize(h.name));
    BlockedExactly(h, inst, s);
    WantedName(h, inst);
    assert forall r :: r in existing ==> DataFor(h, r);
    forall r | r in existing
      ensures Stale(h, inst, r) <==> Outdated(want, r)
      ensures r.rtype == want.rtype ==> (AsksFor(h, inst, r) <==> Exact(want, r))
    {
      StaleExactly(h, inst, r);
    }
    assert Blocked(h, inst, s) <==> exists r :: r in existing && r.rtype != want.rtype;
    PlanCases(want, existing);
    if existing != [] { assert existing[0] in existing; }
  }

  lemma MarkerAsAsked(cfg: Config, h: Hostname, inst: Instance, rec: map<string, Meta>, meta: Meta)
    requires meta in MetasOf(h, rec)
    ensures MarkerFor(cfg.instanceID, h, inst, rec, MarkerRecord(inst, h.name, cfg.instanceID, meta))
  {
    hide Own.MakeValue;
    hide Normalize;
  }

  // ---- What a cycle adds ----

  /** The record is written for some discovered host by one of its writers, as data or as a marker. */
  ghost predicate Due(id: string, reg: Registry, found: Found, rec: map<string, Meta>, backend: Identity, r: Record) {
    exists k, inst :: k in found && inst in Writers(reg, found[k]) && inst.identity == backend
      && (WrittenFor(found[k], inst, r) || MarkerFor(id, found[k], inst, rec, r))
  }

  lemma JobAdds(
    cfg: Config, reg: Registry, found: Found, k: string, inst: Instance, rec: map<string, Meta>, meta: Meta, c: Call)
    requires k in found && inst in Writers(reg, found[k]) && meta in MetasOf(found[k], rec)
    requires JobCall(cfg, inst, WantedRecord(found[k], inst), meta, c) && Added(c.op).Some?
    ensures Due(cfg.instanceID, reg, found, rec, c.id, Added(c.op).value)
  {
    hide WantedRecord;
    hide MarkerRecord;
    hide WrittenFor;
    hide MarkerFor;
    hide MetasOf;
    hide Writers;
    var h := found[k];
    WantedAsAsked(h, inst, WantedRecord(h, inst));
    MarkerAsAsked(cfg, h, inst, rec, meta);
    WantedName(h, inst);
    JobCallAdds(cfg, inst, WantedRecord(h, inst), meta, c);
  }

  lemma AddsAsAsked(
    cfg: Config, env: Env, reg: Registry, found: Found, o: Orders, proc: Proc, w: World) returns (calls: seq<Call>)
    requires OrdersFit(o, proc, found)
    ensures Cycle(cfg, env, reg, found, o, proc, w).w == PerformAll(w, env, calls)
    ensures forall c :: c in calls && Added(c.op).Some? ==>
              Due(cfg.instanceID, reg, found, proc.rec, c.id, Added(c.op).value)
  {
    hide Cycle;
    hide Due;
    hide JobCall;
    hide WantedRecord;
    hide MetasOf;
    hide Writers;
    hide PerformAll;
    var jobs;
    calls, jobs := CycleCalls(cfg, env, reg, found, o, proc, w);
    forall c | c in calls && Added(c.op).Some? ensures Due(cfg.instanceID, reg, found, proc.rec, c.id, Added(c.op).value) {
      assert JobsCall(cfg, jobs, proc.rec, c);
      var job, meta :| job in jobs && job.writer.Some? && meta in MetasOf(job.host, proc.rec)
        && JobCall(cfg, job.writer.value, WantedRecord(job.host, job.writer.value), meta, c);
      var k :| k in found && job.host == found[k] && (job.writer.Some? ==> job.writer.value in Writers(reg, found[k]));
      JobAdds(cfg, reg, found, k, job.writer.value, proc.rec, meta, c);
    }
  }

  /**
   * Whatever fails or interferes, each call of a cycle that adds a record, by creating it or as an
   * update, adds the record that is asked for at one of a discovered host's writers, or its marker.
   */
  lemma CycleAddsAsAsked(cfg: Config, env: Env, reg: Registry, found: Found, o: Orders, proc: Proc, w: World, i: nat)
    requires OrdersFit(o, proc, found)
    requires var log := Cycle(cfg, env, reg, found, o, proc, w).w.log; |w.log| <= i < |log| && Added(log[i].call.op).Some?
    ensures var c := Cycle(cfg, env, reg, found, o, proc, w).w.log[i].call;
            Due(cfg.instanceID, reg, found, proc.rec, c.id, Added(c.op).value)
  {
    hide Cycle;
    hide Due;
    hide Added;
    var calls := AddsAsAsked(cfg, env, reg, found, o, proc, w);
    PerformAllLog(w, env, calls);
    assert Cycle(cfg, env, reg, found, o, proc, w).w.log[|w.log| + (i - |w.log|)].call == calls[i - |w.log|];
    assert calls[i - |w.log|] in calls;
  }

  lemma EffectAdds(s: Store, op: Op, r: Record)
    requires r in Effect(s, op) && r !in s
    ensures Added(op) == Some(r)
  {
  }

  /** A record that is new after a quiet list of calls was added by one of them. */
  lemma {:induction false} QuietAdds(w: World, env: Env, calls: seq<Call>, id: Identity, r: Record)
    requires Quiet(env)
    requires r in At(PerformAll(w, env, calls).stores, id) && r !in At(w.stores, id)
    ensures exists c :: c in calls && c.id == id && Added(c.op) == Some(r)
    decreases |calls|
  {
    hide Effect;
    hide Perform;
    if calls != [] {
      var n := |calls| - 1;
      var w1 := PerformAll(w, env, calls[..n]);
      QuietAt(w1, env, calls[n]);
      if r in At(w1.stores, id) {
        QuietAdds(w, env, calls[..n], id, r);
        var c :| c in calls[..n] && c.id == id && Added(c.op) == Some(r);
        assert c in calls;
      } else {
        EffectAdds(At(w1.stores, id), calls[n].op, r);
        assert calls[n] in calls;
      }
    }
  }

  /** In the stores: what is new after a cycle without failures was asked for, down to its TTL. */
  lemma NewIsAsked(
    cfg: Config, env: Env, reg: Registry, found: Found, o: Orders, proc: Proc, w: World, id: Identity, r: Record)
    requires Quiet(env) && OrdersFit(o, proc, found)
    requires r in At(Cycle(cfg, env, reg, found, o, proc, w).w.stores, id) && r !in At(w.stores, id)
    ensures Due(cfg.instanceID, reg, found, proc.rec, id, r)
  {
    hide Cycle;
    hide Due;
    hide Quiet;
    var calls := AddsAsAsked(cfg, env, reg, found, o, proc, w);
    QuietAdds(w, env, calls, id, r);
  }

  // ---- Recovered metadata is used once ----

  predicate OwnMeta(h: Hostname) {
    h.hints.Some? && h.hints.value.meta != map[]
  }

  /** One of the jobs writes a host of this name, and its hints carry no metadata. */
  ghost predicate Uses(jobs: seq<Job>, k: string) {
    exists i :: 0 <= i < |jobs| && jobs[i].writer.Some? && Normalize(jobs[i].host.name) == k && !OwnMeta(jobs[i].host)
  }

  lemma {:induction false} RecAfterJobs(cfg: Config, env: Env, snap: Snapshot, jobs: seq<Job>, st: Progress, k: string)
    requires EnsureJobs(cfg, env, snap, jobs, st).alive && st.alive
    ensures var rec := EnsureJobs(cfg, env, snap, jobs, st).rec;
            (k in rec <==> k in st.rec && !Uses(jobs, k)) && (k in rec ==> rec[k] == st.rec[k])
    decreases |jobs|
  {
    hide EnsureWrite;
    hide Normalize;
    if jobs != [] {
      var n := |jobs| - 1;
      RecAfterJobs(cfg, env, snap, jobs[..n], st, k);
      UsesOneMore(jobs, k);
    }
  }

  lemma UsesOneMore(jobs: seq<Job>, k: string)
    requires jobs != []
    ensures var n := |jobs| - 1;
            Uses(jobs, k) <==>
              || Uses(jobs[..n], k)
              || (jobs[n].writer.Some? && Normalize(jobs[n].host.name) == k && !OwnMeta(jobs[n].host))
  {
    hide Normalize;
    var n := |jobs| - 1;
    forall i | 0 <= i < n ensures jobs[..n][i] == jobs[i] { }
  }

  /** After a cycle that the process outlives, the recovered metadata of the hosts it wrote for are used up. */
  lemma RecoveredUsedOnce(cfg: Config, env: Env, reg: Registry, found: Found, o: Orders, proc: Proc, w: World, k: string)
    requires cfg.enabled && WellFound(found) && OrdersFit(o, proc, found) && Cycle(cfg, env, reg, found, o, proc, w).alive
    ensures var rec := Cycle(cfg, env, reg, found, o, proc, w).proc.rec;
            && (k in rec <==> k in proc.rec && !(k in found && Writers(reg, found[k]) != [] && !OwnMeta(found[k])))
            && (k in rec ==> rec[k] == proc.rec[k])
  {
    hide EnsureJobs;
    hide CleanAll;
    hide Tripped;
    hide Uses;
    hide Writers;
    var (w1, snap) := TakeSnapshot(env, reg, w);
    RecAfterJobs(cfg, env, snap, JobsFor(reg, found, o.hosts), Progress(w1, proc.rec, [], true), k);
    JobsUse(reg, found, o.hosts, k);
  }

  lemma JobsUse(reg: Registry, found: Found, order: seq<string>, k: string)
    requires WellFound(found) && Enumerates(order, found.Keys)
    ensures Uses(JobsFor(reg, found, order), k) <==> k in found && Writers(reg, found[k]) != [] && !OwnMeta(found[k])
  {
    hide Writers;
    hide ValidName;
    hide Normalize;
    var jobs := JobsFor(reg, found, order);
    JobsForOrigin(reg, found, order);
    if Uses(jobs, k) {
      var i :| 0 <= i < |jobs| && jobs[i].writer.Some? && Normalize(jobs[i].host.name) == k && !OwnMeta(jobs[i].host);
      assert jobs[i] in jobs;
      var x :| x in order && jobs[i].host == found[x] && (jobs[i].writer.Some? ==> jobs[i].writer.value in Writers(reg, found[x]));
      assert x == k;
    }
    if k in found && Writers(reg, found[k]) != [] && !OwnMeta(found[k]) {
      var inst := Writers(reg, found[k])[0];
      var i := JobOf(reg, found, order, k, inst);
      assert jobs[i].writer.Some? && Normalize(jobs[i].host.name) == k && !OwnMeta(jobs[i].host);
    }
  }

  /** What a marker is printed with: the metadata of the hints, or what was recovered if no earlier job used it. */
  ghost function MetaFor(jobs: seq<Job>, i: nat, rec: map<string, Meta>): Meta
    requires i < |jobs|
  {
    var h := jobs[i].host;
    if OwnMeta(h) then h.hints.value.meta
    else if Normalize(h.name) in rec && !Uses(jobs[..i], Normalize(h.name)) then rec[Normalize(h.name)]
    else map[]
  }

  /** A record that is new after the i-th job is the one asked for, or the marker printed with that metadata. */
  lemma MarkerMetadata(cfg: Config, env: Env, snap: Snapshot, jobs: seq<Job>, i: nat, st: Progress, id: Identity, r: Record)
    requires Quiet(env) && st.alive && i < |jobs| && EnsureJobs(cfg, env, snap, jobs[..i], st).alive
    requires var before := EnsureJobs(cfg, env, snap, jobs[..i], st);
             r in At(EnsureJob(cfg, env, snap, jobs[i], before).w.stores, id) && r !in At(before.w.stores, id)
    ensures jobs[i].writer.Some? && jobs[i].writer.value.identity == id
    ensures var h, inst := jobs[i].host, jobs[i].writer.value;
            || WrittenFor(h, inst, r)
            || r == Record("_dnsweaver." + h.name, TXT, Own.MakeValue(cfg.instanceID, MetaFor(jobs, i, st.rec)), inst.ttl, None)
  {
    hide EnsureWrite;
    hide Uses;
    hide EnsureJobs;
    hide WantedRecord;
    hide Normalize;
    hide WrittenFor;
    hide Own.MakeValue;
    hide PerformAll;
    var before, job := EnsureJobs(cfg, env, snap, jobs[..i], st), jobs[i];
    var h := job.host;
    RecAfterJobs(cfg, env, snap, jobs[..i], st, Normalize(h.name));
    var inst := job.writer.value;
    var meta := WantedMeta(h, before.rec);
    assert meta == MetaFor(jobs, i, st.rec);
    var calls := EnsureWriteCalls(cfg, env, snap, h, inst, meta, before.w);
    QuietAdds(before.w, env, calls, id, r);
    var c :| c in calls && c.id == id && Added(c.op) == Some(r);
    JobAt(cfg, inst, WantedRecord(h, inst), meta, c);
    JobCallAdds(cfg, inst, WantedRecord(h, inst), meta, c);
    WantedName(h, inst);
    WantedAsAsked(h, inst, r);
    assert Marker(h.name) == "_dnsweaver." + h.name;
  }

  lemma JobAt(cfg: Config, inst: Instance, want: Record, meta: Meta, c: Call)
    requires JobCall(cfg, inst, want, meta, c)
    ensures c.id == inst.identity
  {
  }
}
