/** Every part of a cycle is a list of calls, and each call is of a known shape. */
module Traces {
  import opened Wrappers
  import opened Names
  import opened Backend
  import opened Model

  // ---- Ensuring a host ----

  /** A call made while ensuring `want` at `inst`. */
  ghost predicate JobCall(cfg: Config, inst: Instance, want: Record, meta: Meta, c: Call) {
    && c.id == inst.identity
    && match c.op
       case List => true
       case Delete(r) => IsData(r.rtype) && Normalize(r.host) == Normalize(want.host)
       case Create(r) => r == want || (cfg.tracking && c == MarkCall(cfg, inst, want.host, meta))
       case Update(prior, next) =>
         && next == want && IsData(want.rtype)
         && IsData(prior.rtype) && Normalize(prior.host) == Normalize(want.host)
  }

  ghost predicate About(existing: Store, want: Record) {
    forall r :: r in existing ==> IsData(r.rtype) && Normalize(r.host) == Normalize(want.host)
  }

  lemma PlanFacts(want: Record, existing: Store)
    requires About(existing, want)
    ensures var p := PlanFor(want, existing);
            && (p.Keep? || p.Change? ==> forall r :: r in p.stale ==> r in existing && Outdated(want, r))
            && (p.Change? ==> p.prior in existing && IsData(want.rtype) && p.prior.rtype == want.rtype)
  {
  }

  lemma EnsureMarkerCalls(
    cfg: Config, env: Env, inst: Instance, want: Record, meta: Meta, owned: bool, w: World) returns (calls: seq<Call>)
    ensures EnsureMarker(cfg, env, inst, want.host, meta, owned, w) == PerformAll(w, env, calls)
    ensures forall c :: c in calls ==> JobCall(cfg, inst, want, meta, c)
  {
    if !cfg.tracking || owned {
      calls := [];
    } else {
      calls := [MarkCall(cfg, inst, want.host, meta)];
      PerformAllOne(w, env, calls[0]);
    }
  }

  lemma UpdateRecordCalls(
    cfg: Config, env: Env, inst: Instance, prior: Record, want: Record, meta: Meta, w: World) returns (calls: seq<Call>)
    requires IsData(want.rtype) && IsData(prior.rtype) && Normalize(prior.host) == Normalize(want.host)
    ensures UpdateRecord(env, inst, prior, want, w).0 == PerformAll(w, env, calls)
    ensures forall c :: c in calls ==> JobCall(cfg, inst, want, meta, c)
  {
    if inst.nativeUpdate {
      calls := [Call(inst.identity, Update(prior, want))];
      PerformAllOne(w, env, calls[0]);
    } else {
      var c1, c2 := Call(inst.identity, Delete(prior)), Call(inst.identity, Create(want));
      var w1 := Perform(w, env, c1);
      PerformAllOne(w, env, c1);
      if LastReply(w1) != Done && LastReply(w1) != Missing {
        calls := [c1];
      } else {
        calls := [c1] + [c2];
        PerformAllSnoc(w, env, [c1], c2);
      }
    }
  }

  lemma StaleCallsShape(cfg: Config, inst: Instance, want: Record, meta: Meta, stale: Store)
    ensures forall c :: c in StaleCalls(inst, want.host, stale) ==> JobCall(cfg, inst, want, meta, c)
  {
  }

  lemma CarryCalls(
    cfg: Config, env: Env, inst: Instance, want: Record, meta: Meta, owned: bool, existing: Store, w: World)
    returns (calls: seq<Call>)
    requires About(existing, want)
    ensures Carry(cfg, env, inst, want, meta, owned, PlanFor(want, existing), w).w == PerformAll(w, env, calls)
    ensures forall c :: c in calls ==> JobCall(cfg, inst, want, meta, c)
  {
    PlanFacts(want, existing);
    if Panics(PlanFor(want, existing)) {
      calls := StaleCalls(inst, want.host, UntilBare(PlanFor(want, existing).stale));
      StaleCallsShape(cfg, inst, want, meta, UntilBare(PlanFor(want, existing).stale));
      return;
    }
    match PlanFor(want, existing)
    case Clash => calls := [];
    case Keep(stale) =>
      var first := StaleCalls(inst, want.host, stale);
      StaleCallsShape(cfg, inst, want, meta, stale);
      if owned || cfg.adopt {
        var last := EnsureMarkerCalls(cfg, env, inst, want, meta, owned, PerformAll(w, env, first));
        PerformAllAppend(w, env, first, last);
        calls := first + last;
      } else {
        calls := first;
      }
    case Change(stale, prior) =>
      var first := StaleCalls(inst, want.host, stale);
      StaleCallsShape(cfg, inst, want, meta, stale);
      calls := ChangeCalls(cfg, env, inst, want, meta, owned, prior, PerformAll(w, env, first));
      PerformAllAppend(w, env, first, calls);
      calls := first + calls;
    case Fresh => calls := FreshCalls(cfg, env, inst, want, meta, owned, w);
  }

  lemma ChangeCalls(
    cfg: Config, env: Env, inst: Instance, want: Record, meta: Meta, owned: bool, prior: Record, w: World)
    returns (calls: seq<Call>)
    requires IsData(want.rtype) && IsData(prior.rtype) && Normalize(prior.host) == Normalize(want.host)
    ensures var (w2, ok) := UpdateRecord(env, inst, prior, want, w);
            PerformAll(w, env, calls)
              == if ok then EnsureMarker(cfg, env, inst, want.host, meta, owned, w2) else w2
    ensures forall c :: c in calls ==> JobCall(cfg, inst, want, meta, c)
  {
    var (w2, ok) := UpdateRecord(env, inst, prior, want, w);
    calls := UpdateRecordCalls(cfg, env, inst, prior, want, meta, w);
    if ok {
      var last := EnsureMarkerCalls(cfg, env, inst, want, meta, owned, w2);
      PerformAllAppend(w, env, calls, last);
      calls := calls + last;
    }
  }

  lemma FreshCalls(
    cfg: Config, env: Env, inst: Instance, want: Record, meta: Meta, owned: bool, w: World) returns (calls: seq<Call>)
    ensures Carry(cfg, env, inst, want, meta, owned, Fresh, w).w == PerformAll(w, env, calls)
    ensures forall c :: c in calls ==> JobCall(cfg, inst, want, meta, c)
  {
    var c := Call(inst.identity, Create(want));
    var w1 := Perform(w, env, c);
    PerformAllOne(w, env, c);
    calls := [c];
    if LastReply(w1) == Done || LastReply(w1) == AlreadyThere {
      var last := EnsureMarkerCalls(cfg, env, inst, want, meta, owned, w1);
      PerformAllAppend(w, env, calls, last);
      calls := calls + last;
    }
  }

  lemma ExistingAbout(env: Env, inst: Instance, h: Hostname, snap: Snapshot, w: World)
    ensures About(Existing(env, inst, h.name, snap, w).1, WantedRecord(h, inst))
  {
    var existing := Existing(env, inst, h.name, snap, w).1;
    forall r | r in existing ensures IsData(r.rtype) && Normalize(r.host) == Normalize(h.name) {
      if Cached(snap, inst, h.name).None? {
        EqualFoldNormalizes(r.host, h.name);
      }
    }
  }

  lemma EnsureWriteCalls(
    cfg: Config, env: Env, snap: Snapshot, h: Hostname, inst: Instance, meta: Meta, w: World)
    returns (calls: seq<Call>)
    ensures EnsureWrite(cfg, env, snap, h, inst, meta, w).w == PerformAll(w, env, calls)
    ensures forall c :: c in calls ==> JobCall(cfg, inst, WantedRecord(h, inst), meta, c)
    ensures cfg.dryRun ==> calls == []
  {
    calls := [];
    if !cfg.dryRun {
      var want := WantedRecord(h, inst);
      var (w1, existing) := Existing(env, inst, h.name, snap, w);
      ExistingAbout(env, inst, h, snap, w);
      calls := CarryCalls(cfg, env, inst, want, meta, Owned(snap, inst, h.name, cfg.instanceID), existing, w1);
      if Cached(snap, inst, h.name).None? {
        var c := Call(inst.identity, List);
        PerformAllOne(w, env, c);
        PerformAllAppend(w, env, [c], calls);
        calls := [c] + calls;
      }
    }
  }

  /** The metadata a host's marker can be printed with: what its hints carry, or else none or what was recovered. */
  ghost function MetasOf(h: Hostname, rec: map<string, Meta>): set<Meta> {
    if HintsMeta(h) then {h.hints.value.meta}
    else {map[]} + if Normalize(h.name) in rec then {rec[Normalize(h.name)]} else {}
  }

  /** A call made for one of the jobs, with whatever metadata it had at the time. */
  ghost predicate JobsCall(cfg: Config, jobs: seq<Job>, rec: map<string, Meta>, c: Call) {
    exists job, meta :: job in jobs && job.writer.Some? && meta in MetasOf(job.host, rec)
      && JobCall(cfg, job.writer.value, WantedRecord(job.host, job.writer.value), meta, c)
  }

  lemma WantedMetaIn(h: Hostname, rec0: map<string, Meta>, rec: map<string, Meta>)
    requires forall k :: k in rec ==> k in rec0 && rec[k] == rec0[k]
    ensures WantedMeta(h, rec) in MetasOf(h, rec0)
  {
  }

  lemma {:induction false} EnsureJobsCalls(
    cfg: Config, env: Env, snap: Snapshot, jobs: seq<Job>, st: Progress) returns (calls: seq<Call>)
    ensures EnsureJobs(cfg, env, snap, jobs, st).w == PerformAll(st.w, env, calls)
    ensures forall c :: c in calls ==> JobsCall(cfg, jobs, st.rec, c)
    ensures cfg.dryRun ==> calls == []
    ensures var rec := EnsureJobs(cfg, env, snap, jobs, st).rec;
            forall k :: k in rec ==> k in st.rec && rec[k] == st.rec[k]
    decreases |jobs|
  {
    calls := [];
    if jobs != [] {
      var n := |jobs| - 1;
      var job := jobs[n];
      var st1 := EnsureJobs(cfg, env, snap, jobs[..n], st);
      calls := EnsureJobsCalls(cfg, env, snap, jobs[..n], st);
      forall c | c in calls ensures JobsCall(cfg, jobs, st.rec, c) {
        JobsCallGrows(cfg, jobs, n, st.rec, c);
      }
      if st1.alive && job.writer.Some? {
        var inst := job.writer.value;
        var meta := WantedMeta(job.host, st1.rec);
        WantedMetaIn(job.host, st.rec, st1.rec);
        var more := EnsureWriteCalls(cfg, env, snap, job.host, inst, meta, st1.w);
        forall c | c in more ensures JobsCall(cfg, jobs, st.rec, c) {
          assert job in jobs && meta in MetasOf(job.host, st.rec);
        }
        PerformAllAppend(st.w, env, calls, more);
        calls := calls + more;
      }
    }
  }

  lemma JobsCallGrows(cfg: Config, jobs: seq<Job>, n: nat, rec: map<string, Meta>, c: Call)
    requires n <= |jobs|
    requires JobsCall(cfg, jobs[..n], rec, c)
    ensures JobsCall(cfg, jobs, rec, c)
  {
    hide JobCall;
    hide WantedRecord;
    hide MetasOf;
    var job, meta :| job in jobs[..n] && job.writer.Some? && meta in MetasOf(job.host, rec)
      && JobCall(cfg, job.writer.value, WantedRecord(job.host, job.writer.value), meta, c);
    assert job in jobs;
  }

  // ---- Sweeping orphans ----

  ghost predicate SweepCall(cfg: Config, s: Sweep, c: Call) {
    && c.id == s.inst.identity
    && !s.inst.mode.Additive?
    && match c.op
       case List => true
       case Delete(r) =>
         || c == UnmarkCall(cfg, s.inst, s.host)
         || (exists x :: Removable(cfg, s.inst, x) && c == RemovalCall(cfg, s.inst, s.host, x)
                    && (DataOnly(cfg, s.inst) ==> IsData(x.rtype)))
       case _ => false
  }

  lemma RecordsToCleanCalls(
    cfg: Config, env: Env, s: Sweep, snap: Snapshot, dataOnly: bool, w: World) returns (calls: seq<Call>)
    requires !s.inst.mode.Additive?
    ensures RecordsToClean(env, s.inst, s.host, snap, dataOnly, w).0 == PerformAll(w, env, calls)
    ensures forall c :: c in calls ==> SweepCall(cfg, s, c)
    ensures forall c :: c in calls ==> c.op.List?
    ensures var records := RecordsToClean(env, s.inst, s.host, snap, dataOnly, w).1;
            dataOnly && records.Some? ==> forall r :: r in records.value ==> IsData(r.rtype)
  {
    var cached := Cached(snap, s.inst, s.host);
    if cached.Some? && cached.value != [] {
      calls := [];
    } else {
      calls := [Call(s.inst.identity, List)];
      PerformAllOne(w, env, calls[0]);
    }
  }

  lemma RemovalCallsShape(cfg: Config, s: Sweep, records: Store)
    requires !s.inst.mode.Additive?
    requires DataOnly(cfg, s.inst) ==> forall r :: r in records ==> IsData(r.rtype)
    ensures forall c :: c in RemovalCalls(cfg, s.inst, s.host, records) ==> SweepCall(cfg, s, c)
  {
  }

  /** What follows once the records to clean are known. */
  ghost function Removal(cfg: Config, env: Env, s: Sweep, records: Store, w: World): World {
    var w2 := if HoldsBack(cfg, s.inst) then w
              else PerformAll(w, env, RemovalCalls(cfg, s.inst, s.host, records));
    if Unmarks(cfg, s.inst) then Perform(w2, env, UnmarkCall(cfg, s.inst, s.host)) else w2
  }

  lemma RemovalTrace(cfg: Config, env: Env, s: Sweep, records: Store, w: World) returns (calls: seq<Call>)
    requires !s.inst.mode.Additive?
    requires DataOnly(cfg, s.inst) ==> forall r :: r in records ==> IsData(r.rtype)
    ensures Removal(cfg, env, s, records, w) == PerformAll(w, env, calls)
    ensures forall c :: c in calls ==> SweepCall(cfg, s, c)
    ensures HoldsBack(cfg, s.inst) ==> calls == []
  {
    calls := [];
    if !HoldsBack(cfg, s.inst) {
      calls := RemovalCalls(cfg, s.inst, s.host, records);
      RemovalCallsShape(cfg, s, records);
    }
    if Unmarks(cfg, s.inst) {
      PerformAllSnoc(w, env, calls, UnmarkCall(cfg, s.inst, s.host));
      calls := calls + [UnmarkCall(cfg, s.inst, s.host)];
    }
  }

  lemma CleanOneCalls(cfg: Config, env: Env, snap: Snapshot, s: Sweep, w: World) returns (calls: seq<Call>)
    ensures CleanOne(cfg, env, snap, s.host, s.inst, w) == PerformAll(w, env, calls)
    ensures forall c :: c in calls ==> SweepCall(cfg, s, c)
    ensures HoldsBack(cfg, s.inst) ==> (forall c :: c in calls ==> c.op.List?)
    ensures NeedsMarker(cfg, s.inst) && !Owned(snap, s.inst, s.host, cfg.instanceID) ==> calls == []
  {
    calls := [];
    if s.inst.mode.Additive? || (NeedsMarker(cfg, s.inst) && !Owned(snap, s.inst, s.host, cfg.instanceID)) {
      return;
    }
    var (w1, records) := RecordsToClean(env, s.inst, s.host, snap, DataOnly(cfg, s.inst), w);
    calls := RecordsToCleanCalls(cfg, env, s, snap, DataOnly(cfg, s.inst), w);
    if records.Some? {
      var more := RemovalTrace(cfg, env, s, records.value, w1);
      PerformAllAppend(w, env, calls, more);
      calls := calls + more;
    }
  }

  /** A call made while sweeping one of the orphans, with what allowed it. */
  ghost predicate SweepsCall(cfg: Config, snap: Snapshot, sweeps: seq<Sweep>, c: Call) {
    exists s :: s in sweeps && AllowedCall(cfg, snap, s, c)
  }

  ghost predicate AllowedCall(cfg: Config, snap: Snapshot, s: Sweep, c: Call) {
    && SweepCall(cfg, s, c)
    && (HoldsBack(cfg, s.inst) ==> c.op.List?)
    && (NeedsMarker(cfg, s.inst) ==> Owned(snap, s.inst, s.host, cfg.instanceID))
  }

  lemma {:induction false} CleanAllCalls(
    cfg: Config, env: Env, snap: Snapshot, sweeps: seq<Sweep>, w: World) returns (calls: seq<Call>)
    ensures CleanAll(cfg, env, snap, sweeps, w) == PerformAll(w, env, calls)
    ensures forall c :: c in calls ==> SweepsCall(cfg, snap, sweeps, c)
    decreases |sweeps|
  {
    calls := [];
    if sweeps != [] {
      var n := |sweeps| - 1;
      var s := sweeps[n];
      calls := CleanAllCalls(cfg, env, snap, sweeps[..n], w);
      var w1 := CleanAll(cfg, env, snap, sweeps[..n], w);
      var more := CleanOneCalls(cfg, env, snap, s, w1);
      PerformAllAppend(w, env, calls, more);
      forall c | c in calls ensures SweepsCall(cfg, snap, sweeps, c) {
        var x :| x in sweeps[..n] && AllowedCall(cfg, snap, x, c);
        assert x in sweeps;
      }
      forall c | c in more ensures SweepsCall(cfg, snap, sweeps, c) {
        assert s in sweeps && AllowedCall(cfg, snap, s, c);
      }
      calls := calls + more;
    }
  }

  // ---- The snapshot and recovery only list ----

  lemma {:induction false} SnapshotCalls(env: Env, reg: Registry, w: World) returns (calls: seq<Call>)
    ensures TakeSnapshot(env, reg, w).0 == PerformAll(w, env, calls)
    ensures forall c :: c in calls ==> c.op.List?
    decreases |reg|
  {
    calls := [];
    if reg != [] {
      var n := |reg| - 1;
      calls := SnapshotCalls(env, reg[..n], w);
      var c := Call(reg[n].identity, List);
      PerformAllSnoc(w, env, calls, c);
      calls := calls + [c];
    }
  }

  lemma {:induction false} RecoverCalls(cfg: Config, env: Env, reg: Registry, proc: Proc, w: World) returns (calls: seq<Call>)
    ensures RecoverAll(cfg, env, reg, proc, w).w == PerformAll(w, env, calls)
    ensures forall c :: c in calls ==> c.op.List?
    decreases |reg|
  {
    calls := [];
    if reg != [] {
      var n := |reg| - 1;
      calls := RecoverCalls(cfg, env, reg[..n], proc, w);
      var c := Call(reg[n].identity, List);
      PerformAllSnoc(w, env, calls, c);
      calls := calls + [c];
    }
  }

  // ---- Where jobs and sweeps come from ----

  lemma {:induction false} JobsForOrigin(reg: Registry, found: Found, order: seq<string>)
    requires forall k :: k in order ==> k in found
    ensures forall job :: job in JobsFor(reg, found, order) ==>
              exists k :: k in order && job.host == found[k] && (job.writer.Some? ==> job.writer.value in Writers(reg, found[k]))
    decreases |order|
  {
    hide Writers;
    if order != [] {
      var n := |order| - 1;
      JobsForOrigin(reg, found, order[..n]);
      assert order[n] in order && forall k :: k in order[..n] ==> k in order;
    }
  }

  lemma {:induction false} FindAllPart(reg: Registry, names: seq<string>)
    ensures forall x :: x in FindAll(reg, names) ==> x in reg
    decreases |names|
  {
    if names != [] { FindAllPart(reg, names[..|names| - 1]); }
  }

  lemma {:induction false} MatchingDomainsPart(reg: Registry, host: string)
    ensures forall x :: x in MatchingDomains(reg, host) ==> x in reg
    decreases |reg|
  {
    if reg != [] { MatchingDomainsPart(reg[..|reg| - 1], host); }
  }

  lemma {:induction false} SweepsForPart(reg: Registry, mapping: map<string, seq<string>>, order: seq<string>)
    ensures forall s :: s in SweepsFor(reg, mapping, order) ==> s.host in order && s.inst in reg
    decreases |order|
  {
    if order != [] {
      var n := |order| - 1;
      SweepsForPart(reg, mapping, order[..n]);
      assert order[n] in order && forall k :: k in order[..n] ==> k in order;
      if order[n] in mapping { FindAllPart(reg, mapping[order[n]]); }
      MatchingDomainsPart(reg, order[n]);
    }
  }
}
