/** A cycle without failures brings every store to rest with the wanted records in it. */
module Convergence {
  import opened Wrappers
  import opened Names
  import opened Backend
  import opened Model
  import opened Traces
  import opened Settling
  import opened Isolation
  import Own = Ownership

  // ---- Registries ----

  /** What Validate and CreateInstance guarantee of the registered instances. */
  ghost predicate ValidRegistry(reg: Registry) {
    && (forall i, j :: 0 <= i < j < |reg| ==> reg[i].name != reg[j].name)
    && (forall i :: 0 <= i < |reg| ==> reg[i].name != "" && (reg[i].rtype.A? || reg[i].rtype.AAAA? || reg[i].rtype.CNAME?))
  }

  lemma {:induction false} MatchingPart(reg: Registry, h: Hostname)
    ensures forall x :: x in Matching(reg, h) ==> x in reg
    decreases |reg|
  {
    if reg != [] { MatchingPart(reg[..|reg| - 1], h); }
  }

  /** The selection keeps instances of the list, and no two of one slot. */
  lemma {:induction false} FirstPerSlotPart(reg: Registry)
    ensures forall x :: x in FirstPerSlot(reg) ==> x in reg
    ensures forall i, j :: 0 <= i < j < |FirstPerSlot(reg)| ==> !SameSlot(FirstPerSlot(reg)[i], FirstPerSlot(reg)[j])
    decreases |reg|
  {
    if reg != [] {
      var n := |reg| - 1;
      FirstPerSlotPart(reg[..n]);
      var m := FirstPerSlot(reg[..n]);
      forall i | 0 <= i < |m| && SameSlot(m[i], reg[n]) ensures exists k :: 0 <= k < n && SameSlot(reg[k], reg[n]) {
        assert m[i] in reg[..n];
      }
    }
  }

  lemma WritersPart(reg: Registry, h: Hostname)
    ensures forall x :: x in Writers(reg, h) ==> x in reg
  {
    MatchingPart(reg, h);
    FirstPerSlotPart(Matching(reg, h));
  }

  /** No two writers of the host on one backend want the same record type. */
  ghost predicate SpreadOut(reg: Registry, h: Hostname) {
    var writers := Writers(reg, h);
    forall i, j :: 0 <= i < j < |writers| && writers[i].identity == writers[j].identity ==>
      WantedRecord(h, writers[i]).rtype != WantedRecord(h, writers[j]).rtype
  }

  predicate HintsType(h: Hostname) {
    h.hints.Some? && h.hints.value.rtype.Some?
  }

  /**
   * The selection of writers spreads a host out by itself, whatever instances share a backend, unless
   * a hint gives all of them the same type: then they must be on different backends.
   */
  lemma SpreadOutExactlyWhen(reg: Registry, h: Hostname)
    ensures SpreadOut(reg, h) <==>
              || !HintsType(h)
              || forall i, j :: 0 <= i < j < |Writers(reg, h)| ==> Writers(reg, h)[i].identity != Writers(reg, h)[j].identity
  {
    FirstPerSlotPart(Matching(reg, h));
  }

  // ---- Jobs ----

  predicate SameBackend(a: Job, b: Job) {
    a.writer.Some? && b.writer.Some? && a.writer.value.identity == b.writer.value.identity
  }

  /** A type of which other types may stand beside: data, and never deleted as stale. */
  predicate Shareable(want: Record) {
    IsData(want.rtype) && !want.rtype.SRV?
  }

  function WantOf(job: Job): Record
    requires job.writer.Some?
  {
    WantedRecord(job.host, job.writer.value)
  }

  /** Two jobs about one host on one backend, for different types. */
  ghost predicate Siblings(a: Job, b: Job) {
    && SameBackend(a, b)
    && Normalize(a.host.name) == Normalize(b.host.name)
    && Shareable(WantOf(a)) && Shareable(WantOf(b)) && WantOf(a).rtype != WantOf(b).rtype
  }

  function NameOf(job: Job): string {
    Normalize(job.host.name)
  }

  /** Two jobs about one of these hosts on one backend are siblings. */
  ghost predicate Unclashing(jobs: seq<Job>, hosts: set<string>) {
    forall i, j :: 0 <= i < j < |jobs| && SameBackend(jobs[i], jobs[j]) && NameOf(jobs[i]) == NameOf(jobs[j]) ==>
      NameOf(jobs[i]) in hosts ==> Siblings(jobs[i], jobs[j])
  }

  ghost predicate JobsOf(jobs: seq<Job>, reg: Registry, found: Found, order: seq<string>)
    requires forall k :: k in order ==> k in found
  {
    forall job :: job in jobs <==> exists k :: k in order && job in HostJobs(reg, found[k])
  }

  lemma {:induction false} JobsForMembers(reg: Registry, found: Found, order: seq<string>)
    requires forall k :: k in order ==> k in found
    ensures JobsOf(JobsFor(reg, found, order), reg, found, order)
    decreases |order|
  {
    hide HostJobs;
    if order != [] {
      var n := |order| - 1;
      assert order[n] in order;
      assert forall k :: k in order <==> k in order[..n] || k == order[n];
      JobsForMembers(reg, found, order[..n]);
    }
  }

  lemma HostJobsShape(reg: Registry, h: Hostname, job: Job)
    requires job in HostJobs(reg, h)
    ensures job.host == h
    ensures job.writer.Some? ==> job.writer.value in reg && job.writer.value in Writers(reg, h)
  {
    WritersPart(reg, h);
  }

  lemma HostJobsUnclashing(reg: Registry, h: Hostname, hosts: set<string>)
    requires ValidRegistry(reg) && (Normalize(h.name) in hosts ==> SpreadOut(reg, h))
    ensures Unclashing(HostJobs(reg, h), hosts)
  {
    WritersPart(reg, h);
    var jobs := HostJobs(reg, h);
    forall i, j | 0 <= i < j < |jobs| && SameBackend(jobs[i], jobs[j]) && NameOf(jobs[i]) in hosts
      ensures Siblings(jobs[i], jobs[j]) {
      var writers := Writers(reg, h);
      assert writers[i] in reg && writers[j] in reg;
      assert jobs[i].writer == Some(writers[i]) && jobs[j].writer == Some(writers[j]);
    }
  }

  lemma UnclashingAppend(a: seq<Job>, b: seq<Job>, hosts: set<string>)
    requires Unclashing(a, hosts) && Unclashing(b, hosts)
    requires forall x, y :: x in a && y in b ==> Normalize(x.host.name) != Normalize(y.host.name)
    ensures Unclashing(a + b, hosts)
  {
  }

  lemma FoundName(found: Found, k: string)
    requires WellFound(found) && k in found
    ensures Normalize(found[k].name) == k
  {
  }

  lemma NewHostApart(reg: Registry, found: Found, order: seq<string>, k: string)
    requires WellFound(found) && k in found && k !in order
    requires forall x :: x in order ==> x in found
    ensures forall x, y :: x in JobsFor(reg, found, order) && y in HostJobs(reg, found[k])
              ==> Normalize(x.host.name) != Normalize(y.host.name)
  {
    JobsForOrigin(reg, found, order);
  }

  /** No two jobs of one cycle are about one spread-out host, one backend and one type. */
  lemma {:induction false} JobsUnclashing(reg: Registry, found: Found, order: seq<string>, hosts: set<string>)
    requires ValidRegistry(reg) && WellFound(found)
    requires forall k :: k in found && k in hosts ==> SpreadOut(reg, found[k])
    requires forall k :: k in order ==> k in found
    requires forall i, j :: 0 <= i < j < |order| ==> order[i] != order[j]
    ensures Unclashing(JobsFor(reg, found, order), hosts)
    decreases |order|
  {
    hide WellFound;
    hide HostJobs;
    if order != [] {
      var n := |order| - 1;
      assert order[n] in order && forall k :: k in order[..n] ==> k in order;
      JobsUnclashing(reg, found, order[..n], hosts);
      FoundName(found, order[n]);
      HostJobsUnclashing(reg, found[order[n]], hosts);
      NewHostApart(reg, found, order[..n], order[n]);
      UnclashingAppend(JobsFor(reg, found, order[..n]), HostJobs(reg, found[order[n]]), hosts);
    }
  }

  // ---- A quiet list of calls touches only what it names ----

  lemma {:induction false} QuietFrame(w: World, env: Env, calls: seq<Call>, id: Identity, r: Record)
    requires Quiet(env)
    requires forall c, k :: c in calls && c.id == id && k in Keys(c.op) ==> !SameKey(r, k)
    ensures r in At(PerformAll(w, env, calls).stores, id) <==> r in At(w.stores, id)
    decreases |calls|
  {
    if calls != [] {
      var n := |calls| - 1;
      assert calls[n] in calls && forall c :: c in calls[..n] ==> c in calls;
      QuietFrame(w, env, calls[..n], id, r);
      var w1 := PerformAll(w, env, calls[..n]);
      QuietAt(w1, env, calls[n]);
      if calls[n].id == id {
        EffectFrame(At(w1.stores, id), calls[n].op, r);
      }
    }
  }

  lemma RelevantKey(want: Record, r: Record, k: Record)
    requires Relevant(want, r) && SameKey(r, k)
    ensures Relevant(want, k)
  {
  }

  /** What one host's job names is irrelevant to any other host. */
  lemma JobsApart(a: Hostname, b: Hostname, instA: Instance, instB: Instance, cfg: Config, meta: Meta, c: Call, k: Record)
    requires ValidName(a) && ValidName(b) && Normalize(a.name) != Normalize(b.name)
    requires JobCall(cfg, instA, WantedRecord(a, instA), meta, c) && k in Keys(c.op)
    ensures !Relevant(WantedRecord(b, instB), k)
  {
    JobCallNames(cfg, instA, WantedRecord(a, instA), meta, c, k);
    FirstLabels(a.name);
    FirstLabels(b.name);
    ValidNeverMarker(a.name, b.name);
    ValidNeverMarker(b.name, a.name);
    MarkerInjective(a.name, b.name);
  }

  lemma JobFrame(
    cfg: Config, env: Env, snap: Snapshot, a: Hostname, instA: Instance, meta: Meta, w: World, b: Hostname, instB: Instance)
    requires Quiet(env) && ValidName(a) && ValidName(b)
    requires instA.identity == instB.identity ==> Normalize(a.name) != Normalize(b.name)
    ensures var w2 := EnsureWrite(cfg, env, snap, a, instA, meta, w).w;
            Agree(WantedRecord(b, instB), At(w.stores, instB.identity), At(w2.stores, instB.identity))
  {
    var calls := EnsureWriteCalls(cfg, env, snap, a, instA, meta, w);
    var want := WantedRecord(b, instB);
    forall r | Relevant(want, r)
      ensures r in At(w.stores, instB.identity)
          <==> r in At(PerformAll(w, env, calls).stores, instB.identity)
    {
      forall c, k | c in calls && c.id == instB.identity && k in Keys(c.op) ensures !SameKey(r, k) {
        if SameKey(r, k) {
          RelevantKey(want, r, k);
          JobsApart(a, b, instA, instB, cfg, meta, c, k);
          assert false;
        }
      }
      QuietFrame(w, env, calls, instB.identity, r);
    }
  }

  /** Canonical, non-empty names: what discovery and recovery put in the known set. */
  ghost predicate CanonicalNames(names: set<string>) {
    forall n :: n in names ==> n != "" && Normalize(n) == n
  }

  lemma SweepKey(cfg: Config, s: Sweep, c: Call, k: Record)
    requires SweepCall(cfg, s, c) && k in Keys(c.op)
    requires !s.inst.rtype.TXT?
    ensures (Normalize(k.host) == Normalize(s.host) && !k.rtype.TXT?)
         || (Normalize(k.host) == Normalize(Marker(s.host)) && k.rtype.TXT?)
  {
  }

  lemma SweepsApart(cfg: Config, s: Sweep, c: Call, k: Record, h: Hostname, inst: Instance)
    requires SweepCall(cfg, s, c) && k in Keys(c.op)
    requires ValidName(h) && s.host != "" && Normalize(s.host) != Normalize(h.name)
    requires !s.inst.rtype.TXT? && !inst.rtype.TXT?
    ensures !Relevant(WantedRecord(h, inst), k)
  {
    hide SweepCall;
    hide ValidName;
    SweepKey(cfg, s, c, k);
    NamesApart(s.host, h, inst);
    NotRelevant(WantedRecord(h, inst), s.host, k);
  }

  lemma NotRelevant(want: Record, host: string, k: Record)
    requires (Normalize(k.host) == Normalize(host) && !k.rtype.TXT?)
          || (Normalize(k.host) == Normalize(Marker(host)) && k.rtype.TXT?)
    requires Normalize(host) != Normalize(want.host) && Normalize(Marker(host)) != Normalize(Marker(want.host))
    requires want.rtype.TXT? ==> Normalize(Marker(host)) != Normalize(want.host)
    ensures !Relevant(want, k)
  {
  }

  lemma NamesApart(host: string, h: Hostname, inst: Instance)
    requires ValidName(h) && host != "" && Normalize(host) != Normalize(h.name) && !inst.rtype.TXT?
    ensures Normalize(Marker(host)) != Normalize(Marker(h.name))
    ensures WantedRecord(h, inst).rtype.TXT? ==> Normalize(Marker(host)) != Normalize(h.name)
  {
    FirstLabels(h.name);
    MarkerInjective(host, h.name);
    if h.hints.None? || h.hints.value.rtype != Some(SRV) {
      ValidHostNotMarker(h.name, host);
    }
  }

  lemma SweepsFrame(
    cfg: Config, env: Env, snap: Snapshot, sweeps: seq<Sweep>, w: World, h: Hostname, inst: Instance)
    requires Quiet(env) && ValidName(h) && !inst.rtype.TXT?
    requires forall s :: s in sweeps ==>
               s.host != "" && Normalize(s.host) != Normalize(h.name) && !s.inst.rtype.TXT?
    ensures Agree(WantedRecord(h, inst), At(w.stores, inst.identity),
                  At(CleanAll(cfg, env, snap, sweeps, w).stores, inst.identity))
  {
    var calls := CleanAllCalls(cfg, env, snap, sweeps, w);
    var want := WantedRecord(h, inst);
    forall r | Relevant(want, r)
      ensures r in At(w.stores, inst.identity) <==> r in At(PerformAll(w, env, calls).stores, inst.identity)
    {
      forall c, k | c in calls && c.id == inst.identity && k in Keys(c.op) ensures !SameKey(r, k) {
        if SameKey(r, k) {
          RelevantKey(want, r, k);
          var s :| s in sweeps && AllowedCall(cfg, snap, s, c);
          SweepsApart(cfg, s, c, k, h, inst);
          assert false;
        }
      }
      QuietFrame(w, env, calls, inst.identity, r);
    }
  }

  // ---- The snapshot of a quiet cycle is the stores themselves ----

  lemma QuietListed(env: Env, inst: Instance, w: World)
    requires Quiet(env)
    ensures var (w1, listed) := Listed(env, inst, w);
            listed == Some(At(w.stores, inst.identity)) && forall id :: At(w1.stores, id) == At(w.stores, id)
  {
  }

  lemma {:induction false} QuietSnapshot(env: Env, reg: Registry, w: World)
    requires Quiet(env)
    requires forall i, j :: 0 <= i < j < |reg| ==> reg[i].name != reg[j].name
    ensures var (w1, snap) := TakeSnapshot(env, reg, w);
            && (forall id :: At(w1.stores, id) == At(w.stores, id))
            && (forall inst :: inst in reg ==> inst.name in snap && snap[inst.name] == Some(At(w.stores, inst.identity)))
    decreases |reg|
  {
    hide Listed;
    hide Quiet;
    if reg != [] {
      var n := |reg| - 1;
      QuietSnapshot(env, reg[..n], w);
      var (w1, snap) := TakeSnapshot(env, reg[..n], w);
      QuietListed(env, reg[n], w1);
      forall inst | inst in reg && inst != reg[n] ensures inst in reg[..n] && inst.name != reg[n].name {
        var i :| 0 <= i < |reg| && reg[i] == inst;
        assert reg[..n][i] == inst;
      }
    }
  }

  ghost predicate Mirrors(snap: Snapshot, stores: map<Identity, Store>, inst: Instance) {
    inst.name in snap && snap[inst.name] == Some(At(stores, inst.identity))
  }

  /** The metadata of the next cycle: recovered metadata has been used up. */
  function NextMeta(h: Hostname): Meta {
    if HintsMeta(h) then h.hints.value.meta else map[]
  }

  // ---- One job ----

  ghost predicate JobSettled(cfg: Config, job: Job, stores: map<Identity, Store>) {
    job.writer.Some? ==>
      var inst := job.writer.value;
      Settled(cfg, inst, WantedRecord(job.host, inst), NextMeta(job.host), At(stores, inst.identity))
  }

  ghost predicate JobTidy(job: Job, stores: map<Identity, Store>) {
    job.writer.Some? ==>
      var inst := job.writer.value;
      Tidy(WantedRecord(job.host, inst), At(stores, inst.identity))
  }

  ghost predicate JobUntouched(job: Job, stores0: map<Identity, Store>, stores: map<Identity, Store>) {
    job.writer.Some? ==>
      var inst := job.writer.value;
      Agree(WantedRecord(job.host, inst), At(stores0, inst.identity), At(stores, inst.identity))
  }

  ghost predicate NoData(want: Record, s: Store) {
    forall r :: r in s ==> !DataOf(want, r)
  }

  ghost predicate MarkersKept(want: Record, s: Store, t: Store) {
    forall r :: r in s && r.rtype.TXT? && Normalize(r.host) == Normalize(Marker(want.host)) ==> r in t
  }

  /**
   * What the store `t` still has to do with the snapshot `s` when a job's turn has not come yet: nothing
   * changed, or its type was kept out then and is now, or only other types have come in.
   */
  ghost predicate InView(want: Record, s: Store, t: Store) {
    || Agree(want, s, t)
    || (Shareable(want) && Clashes(want, s) && Clashes(want, t))
    || (Shareable(want) && NoData(want, s) && NoneOfType(want, t) && MarkersKept(want, s, t))
  }

  ghost predicate JobWaiting(job: Job, stores0: map<Identity, Store>, stores: map<Identity, Store>) {
    job.writer.Some? ==>
      var id := job.writer.value.identity;
      InView(WantOf(job), At(stores0, id), At(stores, id))
  }

  /** What a sibling's job does to the store, seen from `want`; `s0` is the snapshot. */
  ghost predicate Shifted(want: Record, s0: Store, s: Store, t: Store) {
    || s == t
    || (Clashes(want, s0) && Clashes(want, t) && MarkersKept(want, s, t))
    || (NoData(want, s0) && Clashes(want, t)
        && (forall r :: r in s ==> r in t)
        && (forall r :: r in t && r !in s && DataOf(want, r) ==> r.rtype != want.rtype))
  }

  lemma MarkedKept(want: Record, s: Store, t: Store, id: string)
    requires MarkersKept(want, s, t) && Marked(s, want.host, id)
    ensures Marked(t, want.host, id)
  {
    var m :| m in s && IsMarkerOf(m, want.host, id);
    assert m in t;
  }

  lemma ViewAgrees(want: Record, s0: Store, s: Store, t: Store)
    requires InView(want, s0, s) && Agree(want, s, t)
    ensures InView(want, s0, t)
  {
  }

  lemma ViewShifts(want: Record, s0: Store, s: Store, t: Store)
    requires Shareable(want) && InView(want, s0, s) && Shifted(want, s0, s, t)
    ensures InView(want, s0, t)
  {
  }

  /** No other-type data record was there for the host when the snapshot was taken. */
  ghost predicate Unobstructed(job: Job, stores: map<Identity, Store>) {
    job.writer.Some? ==>
      var inst := job.writer.value;
      !Clashes(WantedRecord(job.host, inst), At(stores, inst.identity))
  }

  ghost predicate JobServed(job: Job, stores: map<Identity, Store>) {
    job.writer.Some? ==>
      var inst := job.writer.value;
      Has(At(stores, inst.identity), WantedRecord(job.host, inst))
  }

  /** Ownership is tracked, and what the hints carry leaves the printed ID the owner. */
  ghost predicate Printable(cfg: Config, job: Job) {
    cfg.tracking && Own.KeepsOwner(cfg.instanceID, NextMeta(job.host))
  }

  ghost predicate JobMarked(cfg: Config, job: Job, stores: map<Identity, Store>) {
    job.writer.Some? ==> Marked(At(stores, job.writer.value.identity), job.host.name, cfg.instanceID)
  }

  lemma MarkedByAgree(cfg: Config, want: Record, s: Store, t: Store)
    requires Agree(want, s, t)
    ensures Marked(s, want.host, cfg.instanceID) ==> Marked(t, want.host, cfg.instanceID)
  {
  }

  lemma CurrentByAgree(want: Record, s: Store, t: Store)
    requires Agree(want, s, t)
    ensures Current(want, DataAt(s, Normalize(want.host)), t)
    ensures PlanFor(want, DataAt(s, Normalize(want.host))).Clash? <==> Clashes(want, s)
  {
  }

  /** The update of this job would be handed a record the same job has just deleted. */
  predicate JobMisses(job: Job, stores0: map<Identity, Store>) {
    job.writer.Some? &&
    var inst := job.writer.value;
    var want := WantedRecord(job.host, inst);
    UpdateMisses(inst, want, PlanFor(want, DataAt(At(stores0, inst.identity), Normalize(job.host.name))))
  }

  /**
   * What ends the process: nothing keeps the type out, and a record with the wanted target lacks the SRV
   * data that are wanted.
   */
  ghost predicate Doomed(want: Record, s: Store) {
    && want.rtype.SRV? && want.srv.Some? && !Clashes(want, s)
    && exists r :: r in s && DataOf(want, r) && r.target == want.target && r.srv.None?
  }

  ghost predicate JobDoomed(job: Job, stores0: map<Identity, Store>) {
    job.writer.Some? && Doomed(WantOf(job), At(stores0, job.writer.value.identity))
  }

  ghost predicate NoneDoomed(jobs: seq<Job>, stores0: map<Identity, Store>) {
    forall i :: 0 <= i < |jobs| ==> !JobDoomed(jobs[i], stores0)
  }

  /** The plan made on what a store shows for the host panics exactly when the store dooms it. */
  lemma DoomedExactly(want: Record, s: Store)
    ensures Panics(PlanFor(want, DataAt(s, Normalize(want.host)))) <==> Doomed(want, s)
  {
    hide Normalize;
    var existing := DataAt(s, Normalize(want.host));
    PlanCases(want, existing);
    if Doomed(want, s) {
      var r :| r in s && DataOf(want, r) && r.target == want.target && r.srv.None?;
      assert r in existing && r in StaleOf(want, existing);
    }
    if Panics(PlanFor(want, existing)) {
      var r :| r in StaleOf(want, existing) && r.srv.None?;
      assert r in existing && DataOf(want, r);
    }
  }

  /** No data to write: the type is kept out, or the wanted record is shown. */
  ghost predicate JobIdle(job: Job, stores0: map<Identity, Store>) {
    job.writer.Some? &&
    var s := At(stores0, job.writer.value.identity);
    Clashes(WantOf(job), s) || Shown(WantOf(job), s)
  }

  lemma IdleExactly(want: Record, s: Store)
    ensures var p := PlanFor(want, DataAt(s, Normalize(want.host)));
            && (p.Clash? <==> Clashes(want, s))
            && (p.Keep? <==> !Clashes(want, s) && Shown(want, s))
  {
    hide Normalize;
    var existing := DataAt(s, Normalize(want.host));
    PlanCases(want, existing);
    if Clashes(want, s) {
      var r :| r in s && DataOf(want, r) && r.rtype != want.rtype;
      assert r in existing;
    } else if Shown(want, s) {
      var r :| r in s && DataOf(want, r) && r.rtype == want.rtype && Exact(want, r);
      assert r in existing;
    }
  }

  /** What a successful action is called: nothing to do, something to change, or nothing there yet. */
  ghost function JobKind(job: Job, stores0: map<Identity, Store>): Kind {
    if job.writer.None? then Skipped
    else
      var want, s := WantOf(job), At(stores0, job.writer.value.identity);
      if Clashes(want, s) || Has(s, want) then Skipped
      else if exists r :: r in s && DataOf(want, r) then Updated
      else Created
  }

  /** What the plan made on a store says of the kind. */
  lemma KindCases(want: Record, s: Store)
    ensures var p := PlanFor(want, DataAt(s, Normalize(want.host)));
            && (p.Clash? ==> Clashes(want, s))
            && (p.Keep? ==> Has(s, want))
            && (p.Change? ==> !Has(s, want) && !Clashes(want, s) && exists r :: r in s && DataOf(want, r))
            && (p.Fresh? ==> !Clashes(want, s) && forall r :: r in s ==> !DataOf(want, r))
  {
    hide Normalize;
    var existing := DataAt(s, Normalize(want.host));
    IdleExactly(want, s);
    PlanCases(want, existing);
    match PlanFor(want, existing)
    case Clash =>
    case Keep(_) => ShownHas(want, s);
    case Change(_, prior) => assert prior in s && DataOf(want, prior);
    case Fresh => assert forall r :: r in s && DataOf(want, r) ==> r in existing;
  }

  /** A plan made on one store, carried out on another that has the wanted record exactly if the first has it. */
  lemma CarryKind(
    cfg: Config, env: Env, job: Job, meta: Meta, owned: bool, stores0: map<Identity, Store>, w: World)
    requires Quiet(env) && job.writer.Some?
    requires var inst, want := job.writer.value, WantOf(job);
             Has(At(w.stores, inst.identity), want) <==> Has(At(stores0, inst.identity), want)
    ensures var inst, want := job.writer.value, WantOf(job);
            var s := At(stores0, inst.identity);
            var step := CarryOut(cfg, env, inst, want, meta, owned, PlanFor(want, DataAt(s, Normalize(want.host))), w);
            step.kind == if step.ok then JobKind(job, stores0) else Created
  {
    hide PlanFor;
    hide DataAt;
    hide EnsureMarker;
    hide UpdateRecord;
    hide PerformAll;
    hide Perform;
    hide Normalize;
    hide WantedRecord;
    hide Has;
    hide Clashes;
    hide DataOf;
    var inst, want := job.writer.value, WantOf(job);
    KindCases(want, At(stores0, inst.identity));
    QuietPerform(w, env, Call(inst.identity, Create(want)));
  }

  lemma IdleSkips(cfg: Config, env: Env, inst: Instance, want: Record, meta: Meta, owned: bool, plan: Plan, w: World)
    requires plan.Clash? || plan.Keep?
    ensures CarryOut(cfg, env, inst, want, meta, owned, plan, w).kind.Skipped?
  {
  }

  /** How one job's step ends. */
  ghost predicate StepDone(cfg: Config, job: Job, step: Step, stores0: map<Identity, Store>) {
    && !step.kind.Panicked?
    && JobTidy(job, step.w.stores)
    && (step.ok ==> JobSettled(cfg, job, step.w.stores))
    && (step.ok && Unobstructed(job, stores0) ==> JobServed(job, step.w.stores))
    && (!step.ok ==> !JobServed(job, step.w.stores))
    && (step.ok && !step.kind.Skipped? && Printable(cfg, job) ==> JobMarked(cfg, job, step.w.stores))
    && (step.ok <==> !JobMisses(job, stores0))
    && (JobIdle(job, stores0) ==> step.kind.Skipped?)
    && step.kind == (if step.ok then JobKind(job, stores0) else Created)
  }

  lemma JobCarries(
    cfg: Config, env: Env, snap: Snapshot, job: Job, meta: Meta, stores0: map<Identity, Store>, w: World)
    requires !cfg.dryRun && job.writer.Some? && Mirrors(snap, stores0, job.writer.value)
    ensures var inst, want := job.writer.value, WantOf(job);
            EnsureWrite(cfg, env, snap, job.host, inst, meta, w) ==
            Carry(cfg, env, inst, want, meta, Marked(At(stores0, inst.identity), job.host.name, cfg.instanceID),
                  PlanFor(want, DataAt(At(stores0, inst.identity), Normalize(job.host.name))), w)
    ensures WantOf(job).host == job.host.name
  {
    hide Carry;
    hide PlanFor;
  }

  /** What ensuring a job does that does not end the process, in terms of its plan. */
  lemma JobStep(
    cfg: Config, env: Env, snap: Snapshot, job: Job, meta: Meta, stores0: map<Identity, Store>, w: World)
    requires !cfg.dryRun && job.writer.Some? && Mirrors(snap, stores0, job.writer.value) && !JobDoomed(job, stores0)
    ensures var inst, want := job.writer.value, WantOf(job);
            EnsureWrite(cfg, env, snap, job.host, inst, meta, w) ==
            CarryOut(cfg, env, inst, want, meta, Marked(At(stores0, inst.identity), job.host.name, cfg.instanceID),
                  PlanFor(want, DataAt(At(stores0, inst.identity), Normalize(job.host.name))), w)
    ensures WantOf(job).host == job.host.name
  {
    hide CarryOut;
    hide PlanFor;
    hide Panics;
    hide Doomed;
    hide EnsureWrite;
    hide Mirrors;
    JobCarries(cfg, env, snap, job, meta, stores0, w);
    DoomedExactly(WantOf(job), At(stores0, job.writer.value.identity));
  }

  /** Whatever the calls do: a job ends the process exactly when the snapshot's store dooms it. */
  lemma JobPanicsExactly(
    cfg: Config, env: Env, snap: Snapshot, job: Job, meta: Meta, stores0: map<Identity, Store>, w: World)
    requires !cfg.dryRun && job.writer.Some? && Mirrors(snap, stores0, job.writer.value)
    ensures EnsureWrite(cfg, env, snap, job.host, job.writer.value, meta, w).kind.Panicked? <==> JobDoomed(job, stores0)
  {
    hide CarryOut;
    hide PlanFor;
    hide Panics;
    hide Doomed;
    hide EnsureWrite;
    hide Mirrors;
    JobCarries(cfg, env, snap, job, meta, stores0, w);
    DoomedExactly(WantOf(job), At(stores0, job.writer.value.identity));
  }

  /** A list of jobs is outlived exactly when none of them is doomed, whatever else fails or interferes. */
  lemma {:induction false} JobsOutlivedExactly(
    cfg: Config, env: Env, snap: Snapshot, jobs: seq<Job>, stores0: map<Identity, Store>, st: Progress)
    requires !cfg.dryRun && st.alive
    requires forall job :: job in jobs && job.writer.Some? ==> Mirrors(snap, stores0, job.writer.value)
    ensures EnsureJobs(cfg, env, snap, jobs, st).alive <==> NoneDoomed(jobs, stores0)
    decreases |jobs|
  {
    hide EnsureWrite;
    hide JobDoomed;
    hide Mirrors;
    if jobs != [] {
      var n := |jobs| - 1;
      var job := jobs[n];
      assert job in jobs && forall x :: x in jobs[..n] ==> x in jobs;
      JobsOutlivedExactly(cfg, env, snap, jobs[..n], stores0, st);
      var st1 := EnsureJobs(cfg, env, snap, jobs[..n], st);
      assert NoneDoomed(jobs, stores0) <==> NoneDoomed(jobs[..n], stores0) && !JobDoomed(job, stores0);
      if job.writer.Some? {
        JobPanicsExactly(cfg, env, snap, job, WantedMeta(job.host, st1.rec), stores0, st1.w);
      } else {
        WriterlessLives(job, stores0);
      }
    }
  }

  lemma WriterlessLives(job: Job, stores0: map<Identity, Store>)
    requires job.writer.None?
    ensures !JobDoomed(job, stores0)
  {
  }

  lemma UntouchedJobSettles(
    cfg: Config, env: Env, snap: Snapshot, job: Job, rec: map<string, Meta>, stores0: map<Identity, Store>, w: World)
    requires Quiet(env) && !cfg.dryRun
    requires job.writer.Some? && Mirrors(snap, stores0, job.writer.value) && !JobDoomed(job, stores0)
    requires JobUntouched(job, stores0, w.stores)
    requires PlainRec(cfg.instanceID, rec)
    ensures var step := EnsureWrite(cfg, env, snap, job.host, job.writer.value, WantedMeta(job.host, rec), w);
            StepDone(cfg, job, step, stores0)
  {
    hide CarryOut;
    hide EnsureWrite;
    hide DataAt;
    hide Tidy;
    hide Settled;
    hide PlanFor;
    hide Own.KeepsOwner;
    hide Marked;
    hide MarkedOrPrinted;
    var inst, want := job.writer.value, WantOf(job);
    var s, t := At(stores0, inst.identity), At(w.stores, inst.identity);
    var meta, existing := WantedMeta(job.host, rec), DataAt(s, Normalize(want.host));
    var owned := Marked(s, want.host, cfg.instanceID);
    JobStep(cfg, env, snap, job, meta, stores0, w);
    CurrentByAgree(want, s, t);
    MarkedByAgree(cfg, want, s, t);
    assert Steady(cfg.instanceID, meta, NextMeta(job.host));
    HasAgrees(want, want, s, t);
    CarryKind(cfg, env, job, meta, owned, stores0, w);
    CarrySettles(cfg, env, inst, want, meta, NextMeta(job.host), owned, existing, w);
    IdleExactly(want, s);
    if JobIdle(job, stores0) {
      IdleSkips(cfg, env, inst, want, meta, owned, PlanFor(want, existing), w);
    }
    if Printable(cfg, job) {
      CarryMarks(cfg, env, inst, want, meta, owned, existing, w);
    }
  }

  /** A job whose type was kept out at the snapshot does nothing. */
  lemma ClashedJobSettles(
    cfg: Config, env: Env, snap: Snapshot, job: Job, meta: Meta, stores0: map<Identity, Store>, w: World)
    requires !cfg.dryRun && job.writer.Some? && Mirrors(snap, stores0, job.writer.value)
    requires var id := job.writer.value.identity;
             Clashes(WantOf(job), At(stores0, id)) && Clashes(WantOf(job), At(w.stores, id))
    ensures var step := EnsureWrite(cfg, env, snap, job.host, job.writer.value, meta, w);
            StepDone(cfg, job, step, stores0) && step.w == w
  {
    var id, want := job.writer.value.identity, WantOf(job);
    JobStep(cfg, env, snap, job, meta, stores0, w);
    PlanCases(want, DataAt(At(stores0, id), Normalize(job.host.name)));
    var r :| r in At(stores0, id) && DataOf(want, r) && r.rtype != want.rtype;
    assert r in DataAt(At(stores0, id), Normalize(job.host.name));
  }

  lemma NoDataFresh(want: Record, s: Store)
    requires NoData(want, s)
    ensures PlanFor(want, DataAt(s, Normalize(want.host))).Fresh?
  {
    var existing := DataAt(s, Normalize(want.host));
    if existing != [] { NonEmptyMember(existing); assert false; }
  }

  lemma NothingOfType(want: Record, s: Store, t: Store)
    requires Shareable(want) && NoData(want, s) && NoneOfType(want, t)
    ensures !Has(s, want) && !Has(t, want)
  {
  }

  /** A job that found no data at the snapshot creates its record beside whatever other types came in since. */
  lemma BesideJobSettles(
    cfg: Config, env: Env, snap: Snapshot, job: Job, rec: map<string, Meta>, stores0: map<Identity, Store>, w: World)
    requires Quiet(env) && !cfg.dryRun && PlainRec(cfg.instanceID, rec)
    requires job.writer.Some? && Mirrors(snap, stores0, job.writer.value)
    requires var id, want := job.writer.value.identity, WantOf(job);
             && Shareable(want) && NoData(want, At(stores0, id)) && NoneOfType(want, At(w.stores, id))
             && MarkersKept(want, At(stores0, id), At(w.stores, id))
    ensures StepDone(cfg, job, EnsureWrite(cfg, env, snap, job.host, job.writer.value, WantedMeta(job.host, rec), w), stores0)
  {
    hide CarryOut;
    hide EnsureWrite;
    hide DataAt;
    hide Tidy;
    hide Settled;
    hide PlanFor;
    hide MarkersKept;
    hide NoneOfType;
    hide MarkedOrPrinted;
    hide Marked;
    hide Own.KeepsOwner;
    var inst, want := job.writer.value, WantOf(job);
    var s, meta := At(stores0, inst.identity), WantedMeta(job.host, rec);
    var owned := Marked(s, want.host, cfg.instanceID);
    JobStep(cfg, env, snap, job, meta, stores0, w);
    NoDataFresh(want, s);
    if owned { MarkedKept(want, s, At(w.stores, inst.identity), cfg.instanceID); }
    assert Steady(cfg.instanceID, meta, NextMeta(job.host));
    NothingOfType(want, s, At(w.stores, inst.identity));
    CarryKind(cfg, env, job, meta, owned, stores0, w);
    FreshBeside(cfg, env, inst, want, meta, NextMeta(job.host), owned, w);
    if Printable(cfg, job) {
      FreshMarks(cfg, env, inst, want, meta, owned, w);
    }
  }

  lemma JobSettles(
    cfg: Config, env: Env, snap: Snapshot, job: Job, rec: map<string, Meta>, stores0: map<Identity, Store>, w: World)
    requires Quiet(env) && !cfg.dryRun
    requires job.writer.Some? && Mirrors(snap, stores0, job.writer.value) && !JobDoomed(job, stores0)
    requires JobWaiting(job, stores0, w.stores)
    requires PlainRec(cfg.instanceID, rec)
    ensures StepDone(cfg, job, EnsureWrite(cfg, env, snap, job.host, job.writer.value, WantedMeta(job.host, rec), w), stores0)
  {
    hide StepDone;
    var id, want := job.writer.value.identity, WantOf(job);
    if JobUntouched(job, stores0, w.stores) {
      UntouchedJobSettles(cfg, env, snap, job, rec, stores0, w);
    } else if Clashes(want, At(stores0, id)) {
      ClashedJobSettles(cfg, env, snap, job, WantedMeta(job.host, rec), stores0, w);
    } else {
      BesideJobSettles(cfg, env, snap, job, rec, stores0, w);
    }
  }

  // ---- All jobs of a cycle ----

  /** How a job ends, seen from the stores `stores0` the snapshot was taken of. */
  ghost predicate JobDone(cfg: Config, job: Job, a: Action, stores0: map<Identity, Store>, stores: map<Identity, Store>) {
    && JobTidy(job, stores)
    && (a.ok ==> JobSettled(cfg, job, stores))
    && (a.ok && Unobstructed(job, stores0) ==> JobServed(job, stores))
    && (!a.ok ==> !JobServed(job, stores))
    && (a.ok && !a.kind.Skipped? && Printable(cfg, job) ==> JobMarked(cfg, job, stores))
    && (a.ok <==> !JobMisses(job, stores0))
    && (JobIdle(job, stores0) ==> a.kind.Skipped?)
    && a.kind == (if a.ok then JobKind(job, stores0) else Created)
  }

  lemma JobDoneStays(
    cfg: Config, job: Job, a: Action, stores0: map<Identity, Store>, stores: map<Identity, Store>, later: map<Identity, Store>)
    requires JobDone(cfg, job, a, stores0, stores) && JobUntouched(job, stores, later)
    ensures JobDone(cfg, job, a, stores0, later)
  {
    if job.writer.Some? {
      var inst := job.writer.value;
      var want := WantedRecord(job.host, inst);
      var s, t := At(stores, inst.identity), At(later, inst.identity);
      TidyAgrees(want, s, t);
      MarkedByAgree(cfg, want, s, t);
      if a.ok {
        SettledAgrees(cfg, inst, want, NextMeta(job.host), s, t);
      }
      HasAgrees(want, want, s, t);
    }
  }

  /** A finished job stays finished when a sibling's turn comes. */
  lemma JobDoneShifts(
    cfg: Config, job: Job, a: Action, stores0: map<Identity, Store>, stores: map<Identity, Store>, later: map<Identity, Store>)
    requires job.writer.Some? && Shareable(WantOf(job)) && JobDone(cfg, job, a, stores0, stores)
    requires var id := job.writer.value.identity;
             Shifted(WantOf(job), At(stores0, id), At(stores, id), At(later, id))
    ensures JobDone(cfg, job, a, stores0, later)
  {
    var id, want := job.writer.value.identity, WantOf(job);
    var s0, s, t := At(stores0, id), At(stores, id), At(later, id);
    PlanCases(want, DataAt(s0, Normalize(want.host)));
    assert a.ok;
    if s != t {
      if JobMarked(cfg, job, stores) { MarkedKept(want, s, t, cfg.instanceID); }
      assert Unobstructed(job, stores0) ==> forall r :: r in s ==> r in t;
    }
  }

  ghost predicate Ready(cfg: Config, snap: Snapshot, jobs: seq<Job>, hosts: set<string>, stores0: map<Identity, Store>) {
    && !cfg.dryRun
    && Unclashing(jobs, hosts)
    && (forall i :: 0 <= i < |jobs| ==> ValidName(jobs[i].host))
    && (forall i :: 0 <= i < |jobs| && jobs[i].writer.Some? ==> Mirrors(snap, stores0, jobs[i].writer.value))
  }

  /** The jobs about these hosts are done up to `n`, and wait from there on. */
  ghost predicate Halfway(
    cfg: Config, jobs: seq<Job>, hosts: set<string>, n: nat, stores0: map<Identity, Store>, st: Progress)
    requires n <= |jobs|
  {
    && |st.actions| == n && st.alive
    && PlainRec(cfg.instanceID, st.rec)
    && (forall i :: 0 <= i < n && NameOf(jobs[i]) in hosts ==> JobDone(cfg, jobs[i], st.actions[i], stores0, st.w.stores))
    && (forall i :: n <= i < |jobs| && NameOf(jobs[i]) in hosts ==> JobWaiting(jobs[i], stores0, st.w.stores))
  }

  // ---- Jobs beside each other ----

  /** A TXT record stays when only data records are deleted or updated. */
  lemma {:induction false} TextStays(w: World, env: Env, calls: seq<Call>, id: Identity, r: Record)
    requires Quiet(env) && r.rtype.TXT? && r in At(w.stores, id)
    requires forall c :: c in calls && c.op.Delete? ==> IsData(c.op.record.rtype)
    requires forall c :: c in calls && c.op.Update? ==> IsData(c.op.existing.rtype)
    ensures r in At(PerformAll(w, env, calls).stores, id)
    decreases |calls|
  {
    hide Effect;
    hide Perform;
    if calls != [] {
      var n := |calls| - 1;
      assert calls[n] in calls && forall c :: c in calls[..n] ==> c in calls;
      TextStays(w, env, calls[..n], id, r);
      var w1 := PerformAll(w, env, calls[..n]);
      QuietAt(w1, env, calls[n]);
      TextSurvives(At(w1.stores, id), calls[n].op, r);
    }
  }

  lemma TextSurvives(s: Store, op: Op, r: Record)
    requires r.rtype.TXT? && r in s
    requires (op.Delete? ==> IsData(op.record.rtype)) && (op.Update? ==> IsData(op.existing.rtype))
    ensures r in Effect(s, op)
  {
  }

  lemma JobKeepsMarkers(
    cfg: Config, env: Env, snap: Snapshot, h: Hostname, inst: Instance, meta: Meta, w: World, want: Record, id: Identity)
    requires Quiet(env)
    ensures MarkersKept(want, At(w.stores, id), At(EnsureWrite(cfg, env, snap, h, inst, meta, w).w.stores, id))
  {
    var calls := EnsureWriteCalls(cfg, env, snap, h, inst, meta, w);
    forall r | r in At(w.stores, id) && r.rtype.TXT? ensures r in At(PerformAll(w, env, calls).stores, id) {
      TextStays(w, env, calls, id, r);
    }
  }

  lemma OtherTypeClashes(a: Job, b: Job, t: Store)
    requires Siblings(a, b) && Has(t, WantOf(b))
    ensures Clashes(WantOf(a), t)
  {
    var r :| r in t && SameKey(r, WantOf(b));
    assert DataOf(WantOf(a), r);
  }

  lemma FreshShifts(
    cfg: Config, env: Env, snap: Snapshot, a: Job, b: Job, rec: map<string, Meta>, stores0: map<Identity, Store>, w: World)
    requires Quiet(env) && !cfg.dryRun && PlainRec(cfg.instanceID, rec) && Siblings(a, b)
    requires Mirrors(snap, stores0, b.writer.value) && JobWaiting(b, stores0, w.stores)
    requires NoData(WantOf(b), At(stores0, b.writer.value.identity))
    ensures var id := b.writer.value.identity;
            var step := EnsureWrite(cfg, env, snap, b.host, b.writer.value, WantedMeta(b.host, rec), w);
            Shifted(WantOf(a), At(stores0, id), At(w.stores, id), At(step.w.stores, id))
  {
    hide CarryOut;
    hide Settled;
    hide EnsureWrite;
    hide InView;
    hide Shifted;
    hide Grows;
    hide MarkersKept;
    hide MarkedOrPrinted;
    var inst, want := b.writer.value, WantOf(b);
    var s0, s := At(stores0, inst.identity), At(w.stores, inst.identity);
    var meta := WantedMeta(b.host, rec);
    var owned := Marked(s0, want.host, cfg.instanceID);
    JobStep(cfg, env, snap, b, meta, stores0, w);
    NoDataFresh(want, s0);
    ViewKeepsMarkers(want, s0, s);
    if owned { MarkedKept(want, s0, s, cfg.instanceID); }
    assert Steady(cfg.instanceID, meta, NextMeta(b.host));
    FreshGrows(cfg, env, inst, want, meta, NextMeta(b.host), owned, w);
    GrowthShifts(a, b, s0, s, At(CarryOut(cfg, env, inst, want, meta, owned, Fresh, w).w.stores, inst.identity));
  }

  lemma ViewKeepsMarkers(want: Record, s0: Store, s: Store)
    requires InView(want, s0, s) && NoData(want, s0)
    ensures MarkersKept(want, s0, s)
  {
  }

  lemma GrowthShifts(a: Job, b: Job, s0: Store, s: Store, t: Store)
    requires Siblings(a, b) && NoData(WantOf(b), s0) && Grows(WantOf(b), s, t) && Has(t, WantOf(b))
    ensures Shifted(WantOf(a), s0, s, t)
  {
    OtherTypeClashes(a, b, t);
  }

  lemma TakenShifts(
    cfg: Config, env: Env, snap: Snapshot, a: Job, b: Job, rec: map<string, Meta>, stores0: map<Identity, Store>, w: World)
    requires Quiet(env) && !cfg.dryRun && PlainRec(cfg.instanceID, rec) && Siblings(a, b)
    requires Mirrors(snap, stores0, b.writer.value) && JobWaiting(b, stores0, w.stores)
    requires !NoData(WantOf(b), At(stores0, b.writer.value.identity))
    requires !Clashes(WantOf(b), At(stores0, b.writer.value.identity))
    ensures var id := b.writer.value.identity;
            var step := EnsureWrite(cfg, env, snap, b.host, b.writer.value, WantedMeta(b.host, rec), w);
            Shifted(WantOf(a), At(stores0, id), At(w.stores, id), At(step.w.stores, id))
  {
    hide EnsureWrite;
    hide Settled;
    hide Tidy;
    hide MarkersKept;
    var inst, want := b.writer.value, WantOf(b);
    var meta := WantedMeta(b.host, rec);
    var step := EnsureWrite(cfg, env, snap, b.host, inst, meta, w);
    var r :| r in At(stores0, inst.identity) && DataOf(want, r);
    assert DataOf(WantOf(a), r);
    JobSettles(cfg, env, snap, b, rec, stores0, w);
    assert step.ok && Unobstructed(b, stores0);
    OtherTypeClashes(a, b, At(step.w.stores, inst.identity));
    JobKeepsMarkers(cfg, env, snap, b.host, inst, meta, w, WantOf(a), inst.identity);
  }

  /** Whatever the plan of a job, its siblings see only a shift. */
  lemma SiblingShifts(
    cfg: Config, env: Env, snap: Snapshot, a: Job, b: Job, rec: map<string, Meta>, stores0: map<Identity, Store>, w: World)
    requires Quiet(env) && !cfg.dryRun && PlainRec(cfg.instanceID, rec) && Siblings(a, b)
    requires Mirrors(snap, stores0, b.writer.value) && JobWaiting(b, stores0, w.stores)
    ensures var id := b.writer.value.identity;
            var step := EnsureWrite(cfg, env, snap, b.host, b.writer.value, WantedMeta(b.host, rec), w);
            Shifted(WantOf(a), At(stores0, id), At(w.stores, id), At(step.w.stores, id))
  {
    var s0, want := At(stores0, b.writer.value.identity), WantOf(b);
    if NoData(want, s0) {
      FreshShifts(cfg, env, snap, a, b, rec, stores0, w);
    } else if Clashes(want, s0) {
      hide CarryOut;
      JobStep(cfg, env, snap, b, WantedMeta(b.host, rec), stores0, w);
      var existing := DataAt(s0, Normalize(b.host.name));
      PlanCases(want, existing);
      var r :| r in s0 && DataOf(want, r) && r.rtype != want.rtype;
      assert r in existing;
      ClashChangesNothing(cfg, env, b.writer.value, want, WantedMeta(b.host, rec), Marked(s0, b.host.name, cfg.instanceID), w);
    } else {
      TakenShifts(cfg, env, snap, a, b, rec, stores0, w);
    }
  }

  lemma ClashChangesNothing(cfg: Config, env: Env, inst: Instance, want: Record, meta: Meta, owned: bool, w: World)
    ensures CarryOut(cfg, env, inst, want, meta, owned, Clash, w).w == w
  {
  }

  // ---- One more job ----

  /** What the turn of job `n` does to job `i`: nothing, or a shift if they are siblings. */
  lemma OtherJob(
    cfg: Config, env: Env, snap: Snapshot, jobs: seq<Job>, hosts: set<string>, n: nat, stores0: map<Identity, Store>,
    st: Progress, i: nat)
    requires Quiet(env) && n < |jobs| && i < |jobs| && i != n
    requires Ready(cfg, snap, jobs, hosts, stores0) && PlainRec(cfg.instanceID, st.rec) && NameOf(jobs[i]) in hosts
    requires NameOf(jobs[n]) in hosts ==> JobWaiting(jobs[n], stores0, st.w.stores)
    requires jobs[n].writer.Some? && jobs[i].writer.Some?
    ensures var later := EnsureJob(cfg, env, snap, jobs[n], st).w.stores;
            || JobUntouched(jobs[i], st.w.stores, later)
            || (var id := jobs[i].writer.value.identity;
                Shareable(WantOf(jobs[i])) && Shifted(WantOf(jobs[i]), At(stores0, id), At(st.w.stores, id), At(later, id)))
  {
    hide EnsureWrite;
    hide Shifted;
    hide JobWaiting;
    var a, b := jobs[i], jobs[n];
    if SameBackend(a, b) && Normalize(a.host.name) == Normalize(b.host.name) {
      assert Siblings(a, b) by {
        if i < n { assert Siblings(jobs[i], jobs[n]); } else { assert Siblings(jobs[n], jobs[i]); }
      }
      SiblingShifts(cfg, env, snap, a, b, st.rec, stores0, st.w);
    } else {
      JobFrame(cfg, env, snap, b.host, b.writer.value, WantedMeta(b.host, st.rec), st.w, a.host, a.writer.value);
    }
  }

  lemma NextDone(
    cfg: Config, env: Env, snap: Snapshot, jobs: seq<Job>, hosts: set<string>, n: nat, stores0: map<Identity, Store>,
    st: Progress, i: nat)
    requires Quiet(env) && i < n < |jobs| && NameOf(jobs[i]) in hosts
    requires Ready(cfg, snap, jobs, hosts, stores0) && Halfway(cfg, jobs, hosts, n, stores0, st)
    ensures JobDone(cfg, jobs[i], st.actions[i], stores0, EnsureJob(cfg, env, snap, jobs[n], st).w.stores)
  {
    hide EnsureWrite;
    hide Shifted;
    hide JobDone;
    hide JobUntouched;
    var later := EnsureJob(cfg, env, snap, jobs[n], st).w.stores;
    assert JobDone(cfg, jobs[i], st.actions[i], stores0, st.w.stores);
    if jobs[n].writer.None? || jobs[i].writer.None? {
      WriterlessUntouched(cfg, env, snap, jobs[i], jobs[n], st);
      JobDoneStays(cfg, jobs[i], st.actions[i], stores0, st.w.stores, later);
    } else {
      OtherJob(cfg, env, snap, jobs, hosts, n, stores0, st, i);
      if JobUntouched(jobs[i], st.w.stores, later) {
        JobDoneStays(cfg, jobs[i], st.actions[i], stores0, st.w.stores, later);
      } else {
        JobDoneShifts(cfg, jobs[i], st.actions[i], stores0, st.w.stores, later);
      }
    }
  }

  lemma WriterlessUntouched(cfg: Config, env: Env, snap: Snapshot, a: Job, b: Job, st: Progress)
    requires a.writer.None? || b.writer.None?
    ensures JobUntouched(a, st.w.stores, EnsureJob(cfg, env, snap, b, st).w.stores)
  {
  }

  lemma NextWaiting(
    cfg: Config, env: Env, snap: Snapshot, jobs: seq<Job>, hosts: set<string>, n: nat, stores0: map<Identity, Store>,
    st: Progress, i: nat)
    requires Quiet(env) && n < i < |jobs| && NameOf(jobs[i]) in hosts
    requires Ready(cfg, snap, jobs, hosts, stores0) && Halfway(cfg, jobs, hosts, n, stores0, st)
    ensures JobWaiting(jobs[i], stores0, EnsureJob(cfg, env, snap, jobs[n], st).w.stores)
  {
    hide EnsureWrite;
    hide Shifted;
    hide InView;
    hide Agree;
    if jobs[i].writer.Some? {
      var id, want := jobs[i].writer.value.identity, WantOf(jobs[i]);
      var later := EnsureJob(cfg, env, snap, jobs[n], st).w.stores;
      assert JobWaiting(jobs[i], stores0, st.w.stores);
      if jobs[n].writer.None? {
        WriterlessUntouched(cfg, env, snap, jobs[i], jobs[n], st);
        ViewAgrees(want, At(stores0, id), At(st.w.stores, id), At(later, id));
      } else {
        OtherJob(cfg, env, snap, jobs, hosts, n, stores0, st, i);
        if JobUntouched(jobs[i], st.w.stores, later) {
          ViewAgrees(want, At(stores0, id), At(st.w.stores, id), At(later, id));
        } else {
          ViewShifts(want, At(stores0, id), At(st.w.stores, id), At(later, id));
        }
      }
    }
  }

  lemma ThisJob(
    cfg: Config, env: Env, snap: Snapshot, jobs: seq<Job>, hosts: set<string>, n: nat, stores0: map<Identity, Store>,
    st: Progress)
    requires Quiet(env) && n < |jobs| && !JobDoomed(jobs[n], stores0)
    requires Ready(cfg, snap, jobs, hosts, stores0) && Halfway(cfg, jobs, hosts, n, stores0, st)
    ensures var st2 := EnsureJob(cfg, env, snap, jobs[n], st);
            && st2.alive
            && |st2.actions| == n + 1
            && st2.actions[..n] == st.actions
            && PlainRec(cfg.instanceID, st2.rec)
            && (NameOf(jobs[n]) in hosts ==> JobDone(cfg, jobs[n], st2.actions[n], stores0, st2.w.stores))
  {
    hide EnsureWrite;
    hide Settled;
    hide Tidy;
    if jobs[n].writer.Some? {
      JobPanicsExactly(cfg, env, snap, jobs[n], WantedMeta(jobs[n].host, st.rec), stores0, st.w);
      if NameOf(jobs[n]) in hosts {
        JobSettles(cfg, env, snap, jobs[n], st.rec, stores0, st.w);
      }
    }
  }

  lemma NextJob(
    cfg: Config, env: Env, snap: Snapshot, jobs: seq<Job>, hosts: set<string>, n: nat, stores0: map<Identity, Store>,
    st: Progress)
    requires Quiet(env) && n < |jobs| && !JobDoomed(jobs[n], stores0)
    requires Ready(cfg, snap, jobs, hosts, stores0) && Halfway(cfg, jobs, hosts, n, stores0, st)
    ensures Halfway(cfg, jobs, hosts, n + 1, stores0, EnsureJob(cfg, env, snap, jobs[n], st))
  {
    hide EnsureJob;
    hide JobDone;
    hide JobWaiting;
    hide Ready;
    hide Quiet;
    hide PlainRec;
    hide NameOf;
    var st2 := EnsureJob(cfg, env, snap, jobs[n], st);
    ThisJob(cfg, env, snap, jobs, hosts, n, stores0, st);
    forall i | 0 <= i <= n && NameOf(jobs[i]) in hosts
      ensures JobDone(cfg, jobs[i], st2.actions[i], stores0, st2.w.stores)
    {
      if i < n {
        assert st2.actions[i] == st2.actions[..n][i];
        NextDone(cfg, env, snap, jobs, hosts, n, stores0, st, i);
      }
    }
    forall i | n < i < |jobs| && NameOf(jobs[i]) in hosts ensures JobWaiting(jobs[i], stores0, st2.w.stores) {
      NextWaiting(cfg, env, snap, jobs, hosts, n, stores0, st, i);
    }
  }

  lemma SameStoresWait(job: Job, stores0: map<Identity, Store>, stores: map<Identity, Store>)
    requires forall id :: At(stores, id) == At(stores0, id)
    ensures JobWaiting(job, stores0, stores)
  {
  }

  lemma {:induction false} AllJobs(
    cfg: Config, env: Env, snap: Snapshot, jobs: seq<Job>, hosts: set<string>, n: nat, stores0: map<Identity, Store>,
    st: Progress)
    requires Quiet(env) && n <= |jobs| && NoneDoomed(jobs, stores0)
    requires Ready(cfg, snap, jobs, hosts, stores0) && PlainRec(cfg.instanceID, st.rec) && st.actions == [] && st.alive
    requires forall id :: At(st.w.stores, id) == At(stores0, id)
    ensures Halfway(cfg, jobs, hosts, n, stores0, EnsureJobs(cfg, env, snap, jobs[..n], st))
    decreases n
  {
    hide EnsureJob;
    hide JobDone;
    hide JobWaiting;
    hide Unclashing;
    if n == 0 {
      forall i | 0 <= i < |jobs| ensures JobWaiting(jobs[i], stores0, st.w.stores) {
        SameStoresWait(jobs[i], stores0, st.w.stores);
      }
    } else {
      AllJobs(cfg, env, snap, jobs, hosts, n - 1, stores0, st);
      assert jobs[..n][..n - 1] == jobs[..n - 1];
      NextJob(cfg, env, snap, jobs, hosts, n - 1, stores0, EnsureJobs(cfg, env, snap, jobs[..n - 1], st));
    }
  }

  // ---- A cycle ----

  ghost predicate Regular(cfg: Config, reg: Registry, found: Found, o: Orders, proc: Proc) {
    && cfg.enabled && !cfg.dryRun
    && ValidRegistry(reg)
    && WellFound(found) && CanonicalNames(proc.known) && PlainRec(cfg.instanceID, proc.rec)
    && OrdersFit(o, proc, found)
  }

  /** The canonical names of the discovered hosts that are spread out. */
  ghost function SpreadNames(reg: Registry, found: Found): set<string> {
    set k | k in found && SpreadOut(reg, found[k])
  }

  lemma JobsReady(cfg: Config, env: Env, reg: Registry, found: Found, o: Orders, proc: Proc, w: World)
    requires Quiet(env) && Regular(cfg, reg, found, o, proc)
    ensures Ready(cfg, TakeSnapshot(env, reg, w).1, JobsFor(reg, found, o.hosts), SpreadNames(reg, found), w.stores)
    ensures forall id :: At(TakeSnapshot(env, reg, w).0.stores, id) == At(w.stores, id)
  {
    hide HostJobs;
    hide Writers;
    hide SpreadOut;
    var jobs := JobsFor(reg, found, o.hosts);
    QuietSnapshot(env, reg, w);
    JobsUnclashing(reg, found, o.hosts, SpreadNames(reg, found));
    JobsForMembers(reg, found, o.hosts);
    forall i | 0 <= i < |jobs|
      ensures ValidName(jobs[i].host)
      ensures jobs[i].writer.Some? ==> jobs[i].writer.value in reg
    {
      assert jobs[i] in jobs;
      var k :| k in o.hosts && jobs[i] in HostJobs(reg, found[k]);
      HostJobsShape(reg, found[k], jobs[i]);
    }
  }

  lemma JobOf(reg: Registry, found: Found, order: seq<string>, k: string, inst: Instance) returns (i: nat)
    requires forall x :: x in order ==> x in found
    requires k in order && inst in Writers(reg, found[k])
    ensures i < |JobsFor(reg, found, order)| && JobsFor(reg, found, order)[i] == Job(found[k], Some(inst))
  {
    JobsForMembers(reg, found, order);
    var writers := Writers(reg, found[k]);
    var j :| 0 <= j < |writers| && writers[j] == inst;
    assert HostJobs(reg, found[k])[j] == Job(found[k], Some(inst));
    assert Job(found[k], Some(inst)) in JobsFor(reg, found, order);
    i :| 0 <= i < |JobsFor(reg, found, order)| && JobsFor(reg, found, order)[i] == Job(found[k], Some(inst));
  }

  /** No writer of a discovered host is doomed by what its store holds. */
  ghost predicate Survivable(reg: Registry, found: Found, stores: map<Identity, Store>) {
    forall k, inst :: k in found && inst in Writers(reg, found[k]) ==>
      !Doomed(WantedRecord(found[k], inst), At(stores, inst.identity))
  }

  lemma SurvivableJobs(reg: Registry, found: Found, order: seq<string>, stores: map<Identity, Store>)
    requires Enumerates(order, found.Keys)
    ensures Survivable(reg, found, stores) <==> NoneDoomed(JobsFor(reg, found, order), stores)
  {
    hide Doomed;
    hide Writers;
    var jobs := JobsFor(reg, found, order);
    if Survivable(reg, found, stores) {
      JobsForMembers(reg, found, order);
      forall i | 0 <= i < |jobs| ensures !JobDoomed(jobs[i], stores) {
        assert jobs[i] in jobs;
        var k :| k in order && jobs[i] in HostJobs(reg, found[k]);
        HostJobsShape(reg, found[k], jobs[i]);
      }
    }
    if NoneDoomed(jobs, stores) {
      forall k, inst | k in found && inst in Writers(reg, found[k])
        ensures !Doomed(WantedRecord(found[k], inst), At(stores, inst.identity))
      {
        var i := JobOf(reg, found, order, k, inst);
        assert !JobDoomed(jobs[i], stores);
      }
    }
  }

  /**
   * A cycle whose snapshot shows the stores as they are is outlived by the process exactly when no
   * writer of a discovered host is doomed, whatever fails or interferes after the snapshot.
   */
  lemma CycleOutlivedExactlyWhen(cfg: Config, env: Env, reg: Registry, found: Found, o: Orders, proc: Proc, w: World)
    requires cfg.enabled && !cfg.dryRun && OrdersFit(o, proc, found)
    requires forall inst :: inst in reg ==> Mirrors(TakeSnapshot(env, reg, w).1, w.stores, inst)
    ensures Cycle(cfg, env, reg, found, o, proc, w).alive <==> Survivable(reg, found, w.stores)
  {
    hide Survivable;
    hide NoneDoomed;
    hide EnsureJobs;
    hide CleanAll;
    hide Mirrors;
    hide Tripped;
    var jobs := JobsFor(reg, found, o.hosts);
    var (w1, snap) := TakeSnapshot(env, reg, w);
    JobsForMembers(reg, found, o.hosts);
    forall job | job in jobs && job.writer.Some? ensures Mirrors(snap, w.stores, job.writer.value) {
      var k :| k in o.hosts && job in HostJobs(reg, found[k]);
      HostJobsShape(reg, found[k], job);
    }
    JobsOutlivedExactly(cfg, env, snap, jobs, w.stores, Progress(w1, proc.rec, [], true));
    SurvivableJobs(reg, found, o.hosts, w.stores);
  }

  lemma QuietMirrors(env: Env, reg: Registry, w: World)
    requires Quiet(env) && ValidRegistry(reg)
    ensures forall inst :: inst in reg ==> Mirrors(TakeSnapshot(env, reg, w).1, w.stores, inst)
  {
    QuietSnapshot(env, reg, w);
  }

  lemma QuietOutlives(cfg: Config, env: Env, reg: Registry, found: Found, o: Orders, proc: Proc, w: World)
    requires Quiet(env) && Regular(cfg, reg, found, o, proc)
    ensures Cycle(cfg, env, reg, found, o, proc, w).alive <==> Survivable(reg, found, w.stores)
  {
    hide Cycle;
    hide Survivable;
    hide Mirrors;
    QuietMirrors(env, reg, w);
    CycleOutlivedExactlyWhen(cfg, env, reg, found, o, proc, w);
  }

  lemma RegistryType(reg: Registry, inst: Instance)
    requires ValidRegistry(reg) && inst in reg
    ensures !inst.rtype.TXT?
  {
  }

  lemma JobSpread(reg: Registry, found: Found, order: seq<string>, job: Job)
    requires WellFound(found) && (forall k :: k in order ==> k in found) && job in JobsFor(reg, found, order)
    ensures NameOf(job) in SpreadNames(reg, found) <==> SpreadOut(reg, job.host)
  {
    JobsForOrigin(reg, found, order);
    var k :| k in order && job.host == found[k];
  }

  /** The outcome of a whole quiet cycle that the process outlives, job by job, for every host that is spread out. */
  lemma CycleSettles(cfg: Config, env: Env, reg: Registry, found: Found, o: Orders, proc: Proc, w: World)
    requires Quiet(env) && Regular(cfg, reg, found, o, proc) && Survivable(reg, found, w.stores)
    ensures Cycle(cfg, env, reg, found, o, proc, w).alive
    ensures var jobs := JobsFor(reg, found, o.hosts);
            var actions := AfterEnsure(cfg, env, reg, found, o.hosts, proc, w).0.actions;
            && |actions| == |jobs|
            && forall i :: 0 <= i < |jobs| && SpreadOut(reg, jobs[i].host) ==>
                 JobDone(cfg, jobs[i], actions[i], w.stores, Cycle(cfg, env, reg, found, o, proc, w).w.stores)
  {
    hide JobDone;
    hide SpreadOut;
    hide Survivable;
    hide NoneDoomed;
    hide JobWaiting;
    hide Ready;
    hide HostJobs;
    var jobs, hosts := JobsFor(reg, found, o.hosts), SpreadNames(reg, found);
    var (w1, snap) := TakeSnapshot(env, reg, w);
    SurvivableJobs(reg, found, o.hosts, w.stores);
    JobsReady(cfg, env, reg, found, o, proc, w);
    AllJobs(cfg, env, snap, jobs, hosts, |jobs|, w.stores, Progress(w1, proc.rec, [], true));
    assert jobs[..|jobs|] == jobs;
    var st := EnsureJobs(cfg, env, snap, jobs, Progress(w1, proc.rec, [], true));
    var w2 := Cycle(cfg, env, reg, found, o, proc, w).w;
    forall i | 0 <= i < |jobs| && SpreadOut(reg, jobs[i].host)
      ensures JobDone(cfg, jobs[i], st.actions[i], w.stores, w2.stores)
    {
      JobSpread(reg, found, o.hosts, jobs[i]);
      if cfg.cleanup && !Tripped(proc.known, found) {
        CleanupKeepsJobs(cfg, env, reg, found, o, proc, snap, st.w);
        JobDoneStays(cfg, jobs[i], st.actions[i], w.stores, st.w.stores, w2.stores);
      }
    }
  }

  lemma CleanupKeepsJobs(
    cfg: Config, env: Env, reg: Registry, found: Found, o: Orders, proc: Proc, snap: Snapshot, w: World)
    requires Quiet(env) && Regular(cfg, reg, found, o, proc)
    ensures forall job :: job in JobsFor(reg, found, o.hosts) ==>
              JobUntouched(job, w.stores, CleanAll(cfg, env, snap, SweepsFor(reg, proc.mapping, o.orphans), w).stores)
  {
    var sweeps := SweepsFor(reg, proc.mapping, o.orphans);
    SweepsForPart(reg, proc.mapping, o.orphans);
    JobsForMembers(reg, found, o.hosts);
    forall job | job in JobsFor(reg, found, o.hosts) && job.writer.Some?
      ensures JobUntouched(job, w.stores, CleanAll(cfg, env, snap, sweeps, w).stores)
    {
      var k :| k in o.hosts && job in HostJobs(reg, found[k]);
      HostJobsShape(reg, found[k], job);
      RegistryType(reg, job.writer.value);
      forall s | s in sweeps
        ensures s.host != "" && Normalize(s.host) != Normalize(job.host.name) && !s.inst.rtype.TXT?
      {
        RegistryType(reg, s.inst);
      }
      SweepsFrame(cfg, env, snap, sweeps, w, job.host, job.writer.value);
    }
  }
}
