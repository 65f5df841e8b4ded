/**
 * The reconcile cycle as a function on worlds.
 *
 * Everything a cycle decides and every call it makes, in order, is a function of the configuration,
 * the registry, the discovered host names, the process state and the world.  The methods of class
 * Reconciler are proved equal to these functions; the theorems are about these functions.
 */
module Model {
  import opened Wrappers
  import opened Names
  import opened Backend
  import Own = Ownership
  import Glob

  type Meta = Own.Meta

  // ---- Configuration ----

  datatype Config = Config(
    enabled: bool, dryRun: bool, cleanup: bool, tracking: bool, adopt: bool, instanceID: string)

  datatype Mode = Managed | Authoritative | Additive

  datatype Instance = Instance(
    name: string, identity: Identity, domains: Glob.Matcher, filters: map<string, seq<string>>,
    rtype: RecordType, target: string, ttl: int, mode: Mode,
    ownershipTXT: bool, types: set<RecordType>, nativeUpdate: bool)

  type Registry = seq<Instance>

  datatype Hints = Hints(
    rtype: Option<RecordType>, target: string, ttl: int, provider: string, srv: Option<SrvData>, meta: Meta)

  datatype Hostname = Hostname(name: string, hints: Option<Hints>, meta: Meta)

  predicate ValidName(h: Hostname) {
    if h.hints.Some? && h.hints.value.rtype == Some(SRV) then ValidService(h.name) else ValidHost(h.name)
  }

  // ---- Routing: which instances write a host ----

  predicate PassesFilters(filters: map<string, seq<string>>, meta: Meta) {
    forall k :: k in filters && k in meta ==> meta[k] in filters[k]
  }

  predicate Wants(inst: Instance, h: Hostname) {
    Glob.Handles(inst.domains, h.name) && PassesFilters(inst.filters, h.meta)
  }

  function Matching(reg: Registry, h: Hostname): Registry {
    if reg == [] then []
    else
      var n := |reg| - 1;
      Matching(reg[..n], h) + (if Wants(reg[n], h) then [reg[n]] else [])
  }

  predicate SameSlot(a: Instance, b: Instance) {
    a.identity == b.identity && a.rtype == b.rtype
  }

  function FirstPerSlot(reg: Registry): Registry {
    if reg == [] then []
    else
      var n := |reg| - 1;
      FirstPerSlot(reg[..n]) +
      (if exists i :: 0 <= i < n && SameSlot(reg[i], reg[n]) then [] else [reg[n]])
  }

  function Find(reg: Registry, name: string): (r: Option<Instance>)
    ensures r.Some? ==> r.value in reg && r.value.name == name
    ensures r.None? ==> forall inst :: inst in reg ==> inst.name != name
  {
    if reg == [] then None
    else
      assert reg == [reg[0]] + reg[1..];
      if reg[0].name == name then Some(reg[0]) else Find(reg[1..], name)
  }

  function Writers(reg: Registry, h: Hostname): Registry {
    if h.hints.Some? && h.hints.value.provider != "" then
      var inst := Find(reg, h.hints.value.provider);
      if inst.Some? then [inst.value] else []
    else FirstPerSlot(Matching(reg, h))
  }

  // ---- What is wanted for a host at an instance ----

  function WantedRecord(h: Hostname, inst: Instance): Record {
    match h.hints
    case None => Record(h.name, inst.rtype, inst.target, inst.ttl, None)
    case Some(x) =>
      Record(h.name,
             x.rtype.Or(inst.rtype),
             if x.target != "" then x.target else inst.target,
             if x.ttl > 0 then x.ttl else inst.ttl,
             x.srv)
  }

  predicate HintsMeta(h: Hostname) {
    h.hints.Some? && h.hints.value.meta != map[]
  }

  function WantedMeta(h: Hostname, rec: map<string, Meta>): Meta {
    if HintsMeta(h) then h.hints.value.meta
    else if Normalize(h.name) in rec then rec[Normalize(h.name)]
    else map[]
  }

  /** Recovered metadata is used once. */
  function Unused(h: Hostname, rec: map<string, Meta>): map<string, Meta> {
    if HintsMeta(h) then rec else rec - {Normalize(h.name)}
  }

  // ---- The snapshot ----

  type Snapshot = map<string, Option<Store>>

  ghost function Listed(env: Env, inst: Instance, w: World): (World, Option<Store>) {
    var w1 := Perform(w, env, Call(inst.identity, List));
    (w1, if LastReply(w1) == Done then Some(At(w1.stores, inst.identity)) else None)
  }

  ghost function TakeSnapshot(env: Env, reg: Registry, w: World): (World, Snapshot) {
    if reg == [] then (w, map[])
    else
      var n := |reg| - 1;
      var (w1, snap) := TakeSnapshot(env, reg[..n], w);
      var (w2, records) := Listed(env, reg[n], w1);
      (w2, snap[reg[n].name := records])
  }

  /** The data records of one canonical name, in store order. */
  function DataAt(s: Store, name: string): (t: Store)
    ensures forall r :: r in t <==> r in s && IsData(r.rtype) && Normalize(r.host) == name
  {
    if s == [] then []
    else
      var n := |s| - 1;
      assert s == s[..n] + [s[n]];
      DataAt(s[..n], name) + (if IsData(s[n].rtype) && Normalize(s[n].host) == name then [s[n]] else [])
  }

  /** As DataAt, but comparing names by case folding alone and without trimming a trailing dot. */
  function DataFolded(s: Store, host: string): (t: Store)
    ensures forall r :: r in t <==> r in s && IsData(r.rtype) && Lower(r.host) == Lower(host)
  {
    if s == [] then []
    else
      var n := |s| - 1;
      assert s == s[..n] + [s[n]];
      DataFolded(s[..n], host) + (if IsData(s[n].rtype) && Lower(s[n].host) == Lower(host) then [s[n]] else [])
  }

  function Cached(snap: Snapshot, inst: Instance, host: string): Option<Store> {
    if inst.name in snap && snap[inst.name].Some? then Some(DataAt(snap[inst.name].value, Normalize(host))) else None
  }

  predicate IsMarkerOf(r: Record, host: string, id: string) {
    r.rtype.TXT? && Normalize(r.host) == Normalize(Marker(host)) && Own.MatchesOwnership(r.target, id)
  }

  ghost predicate Marked(s: Store, host: string, id: string) {
    exists r :: r in s && IsMarkerOf(r, host, id)
  }

  ghost predicate Owned(snap: Snapshot, inst: Instance, host: string, id: string) {
    inst.name in snap && snap[inst.name].Some? && Marked(snap[inst.name].value, host, id)
  }

  // ---- Ensuring one host at one instance ----

  /** Panicked: the process died on the way; no action is returned then. */
  datatype Kind = Created | Updated | Skipped | Panicked
  datatype Action = Action(kind: Kind, ok: bool, provider: string, host: string)

  /** What to do about the records already there. */
  datatype Plan =
    | Clash
    | Keep(stale: Store)
    | Change(stale: Store, prior: Record)
    | Fresh

  predicate Exact(want: Record, r: Record) {
    r.target == want.target && (want.rtype.SRV? ==> r.srv == want.srv)
  }

  predicate Outdated(want: Record, r: Record) {
    r.target == want.target && want.rtype.SRV? && r.srv != want.srv
  }

  function StaleOf(want: Record, existing: Store): (t: Store)
    ensures forall r :: r in t <==> r in existing && Outdated(want, r)
  {
    if existing == [] then []
    else
      var n := |existing| - 1;
      assert existing == existing[..n] + [existing[n]];
      StaleOf(want, existing[..n]) + (if Outdated(want, existing[n]) then [existing[n]] else [])
  }

  function PlanFor(want: Record, existing: Store): Plan {
    if exists i :: 0 <= i < |existing| && existing[i].rtype != want.rtype then Clash
    else if exists i :: 0 <= i < |existing| && Exact(want, existing[i]) then Keep(StaleOf(want, existing))
    else if existing != [] then Change(StaleOf(want, existing), existing[0])
    else Fresh
  }

  function DeleteSrv(inst: Instance, host: string, r: Record): Call {
    Call(inst.identity, Delete(Record(host, SRV, r.target, 0, r.srv)))
  }

  function DeleteByTarget(inst: Instance, host: string, r: Record): Call {
    Call(inst.identity, Delete(Record(host, r.rtype, r.target, 0, None)))
  }

  function DeleteData(inst: Instance, host: string, r: Record): Call {
    if r.rtype.SRV? then DeleteSrv(inst, host, r) else DeleteByTarget(inst, host, r)
  }

  function StaleCalls(inst: Instance, host: string, stale: Store): (calls: seq<Call>)
    ensures |calls| == |stale|
    ensures forall i :: 0 <= i < |stale| ==> calls[i] == DeleteSrv(inst, host, stale[i])
  {
    seq(|stale|, i requires 0 <= i < |stale| => DeleteSrv(inst, host, stale[i]))
  }

  ghost function MarkerRecord(inst: Instance, host: string, id: string, meta: Meta): Record {
    Record(Marker(host), TXT, Own.MakeValue(id, meta), inst.ttl, None)
  }

  ghost function MarkCall(cfg: Config, inst: Instance, host: string, meta: Meta): Call {
    Call(inst.identity, Create(MarkerRecord(inst, host, cfg.instanceID, meta)))
  }

  ghost function EnsureMarker(
    cfg: Config, env: Env, inst: Instance, host: string, meta: Meta, owned: bool, w: World): World
  {
    if !cfg.tracking || owned then w else Perform(w, env, MarkCall(cfg, inst, host, meta))
  }

  /** UpdateRecord: a native update, or else delete and create. */
  ghost function UpdateRecord(env: Env, inst: Instance, prior: Record, want: Record, w: World): (World, bool) {
    if inst.nativeUpdate then
      var w1 := Perform(w, env, Call(inst.identity, Update(prior, want)));
      (w1, LastReply(w1) == Done)
    else
      var w1 := Perform(w, env, Call(inst.identity, Delete(prior)));
      if LastReply(w1) != Done && LastReply(w1) != Missing then (w1, false)
      else
        var w2 := Perform(w1, env, Call(inst.identity, Create(want)));
        (w2, LastReply(w2) == Done)
  }

  datatype Step = Step(w: World, kind: Kind, ok: bool)

  /** Stale records are deleted up to the first one without SRV data: reading its data ends the process. */
  function UntilBare(stale: Store): (t: Store)
    ensures (forall r :: r in stale ==> r.srv.Some?) ==> t == stale
    ensures forall r :: r in t ==> r in stale && r.srv.Some?
  {
    if stale == [] || stale[0].srv.None? then []
    else
      assert stale == [stale[0]] + stale[1..];
      [stale[0]] + UntilBare(stale[1..])
  }

  predicate Panics(plan: Plan) {
    (plan.Keep? || plan.Change?) && exists r :: r in plan.stale && r.srv.None?
  }

  ghost function Carry(
    cfg: Config, env: Env, inst: Instance, want: Record, meta: Meta, owned: bool, plan: Plan, w: World): Step
  {
    if Panics(plan) then Step(PerformAll(w, env, StaleCalls(inst, want.host, UntilBare(plan.stale))), Panicked, false)
    else CarryOut(cfg, env, inst, want, meta, owned, plan, w)
  }

  /** A plan that does not panic. */
  ghost function CarryOut(
    cfg: Config, env: Env, inst: Instance, want: Record, meta: Meta, owned: bool, plan: Plan, w: World): (step: Step)
    ensures !step.kind.Panicked?
  {
    match plan
    case Clash => Step(w, Skipped, true)
    case Keep(stale) =>
      var w1 := PerformAll(w, env, StaleCalls(inst, want.host, stale));
      Step(if owned || cfg.adopt then EnsureMarker(cfg, env, inst, want.host, meta, owned, w1) else w1, Skipped, true)
    case Change(stale, prior) =>
      var w1 := PerformAll(w, env, StaleCalls(inst, want.host, stale));
      var (w2, ok) := UpdateRecord(env, inst, prior, want, w1);
      if ok then Step(EnsureMarker(cfg, env, inst, want.host, meta, owned, w2), Updated, true)
      else Step(w2, Created, false)
    case Fresh =>
      var w1 := Perform(w, env, Call(inst.identity, Create(want)));
      if LastReply(w1) == Done then
        Step(EnsureMarker(cfg, env, inst, want.host, meta, owned, w1), Created, true)
      else if LastReply(w1) == AlreadyThere then
        Step(EnsureMarker(cfg, env, inst, want.host, meta, owned, w1), Skipped, true)
      else if LastReply(w1) == TypeClash then Step(w1, Skipped, true)
      else Step(w1, Created, false)
  }

  /** The records the decision is based on: the snapshot, or a fresh list when the snapshot failed. */
  ghost function Existing(env: Env, inst: Instance, host: string, snap: Snapshot, w: World): (World, Store) {
    match Cached(snap, inst, host)
    case Some(records) => (w, records)
    case None =>
      var (w1, listed) := Listed(env, inst, w);
      (w1, if listed.Some? then DataFolded(listed.value, host) else [])
  }

  datatype Progress = Progress(w: World, rec: map<string, Meta>, actions: seq<Action>, alive: bool)

  ghost function EnsureWrite(
    cfg: Config, env: Env, snap: Snapshot, h: Hostname, inst: Instance, meta: Meta, w: World): Step
  {
    if cfg.dryRun then Step(w, Created, true)
    else
      var want := WantedRecord(h, inst);
      var (w1, existing) := Existing(env, inst, h.name, snap, w);
      Carry(cfg, env, inst, want, meta, Owned(snap, inst, h.name, cfg.instanceID), PlanFor(want, existing), w1)
  }

  // ---- Ensuring every host ----

  datatype Job = Job(host: Hostname, writer: Option<Instance>)

  ghost function EnsureJob(cfg: Config, env: Env, snap: Snapshot, job: Job, st: Progress): Progress {
    if !st.alive then st
    else
      match job.writer
      case None => st.(actions := st.actions + [Action(Skipped, true, "", job.host.name)])
      case Some(inst) =>
        var step := EnsureWrite(cfg, env, snap, job.host, inst, WantedMeta(job.host, st.rec), st.w);
        if step.kind.Panicked? then Progress(step.w, Unused(job.host, st.rec), st.actions, false)
        else Progress(step.w, Unused(job.host, st.rec),
                      st.actions + [Action(step.kind, step.ok, inst.name, job.host.name)], true)
  }

  ghost function EnsureJobs(cfg: Config, env: Env, snap: Snapshot, jobs: seq<Job>, st: Progress): Progress {
    if jobs == [] then st
    else EnsureJob(cfg, env, snap, jobs[|jobs| - 1], EnsureJobs(cfg, env, snap, jobs[..|jobs| - 1], st))
  }

  /** A dead process makes no more of its calls. */
  lemma {:induction false} DeadEnsures(cfg: Config, env: Env, snap: Snapshot, jobs: seq<Job>, st: Progress)
    requires !st.alive
    ensures EnsureJobs(cfg, env, snap, jobs, st) == st
    decreases |jobs|
  {
    if jobs != [] { DeadEnsures(cfg, env, snap, jobs[..|jobs| - 1], st); }
  }

  function HostJobs(reg: Registry, h: Hostname): (jobs: seq<Job>)
  {
    var writers := Writers(reg, h);
    if writers == [] then [Job(h, None)]
    else seq(|writers|, i requires 0 <= i < |writers| => Job(h, Some(writers[i])))
  }

  type Found = map<string, Hostname>

  function JobsFor(reg: Registry, found: Found, order: seq<string>): seq<Job>
    requires forall k :: k in order ==> k in found
  {
    if order == [] then []
    else
      var n := |order| - 1;
      assert order[n] in order;
      JobsFor(reg, found, order[..n]) + HostJobs(reg, found[order[n]])
  }

  lemma {:induction false} EnsureJobsAppend(cfg: Config, env: Env, snap: Snapshot, a: seq<Job>, b: seq<Job>, st: Progress)
    ensures EnsureJobs(cfg, env, snap, a + b, st) == EnsureJobs(cfg, env, snap, b, EnsureJobs(cfg, env, snap, a, st))
    decreases |b|
  {
    if b == [] {
      assert a + b == a;
    } else {
      var n := |b| - 1;
      assert (a + b)[..|a + b| - 1] == a + b[..n];
      EnsureJobsAppend(cfg, env, snap, a, b[..n], st);
    }
  }

  lemma JobsNext(
    cfg: Config, env: Env, snap: Snapshot, reg: Registry, found: Found, order: seq<string>, k: string, st: Progress)
    requires k in found && forall x :: x in order ==> x in found
    ensures forall x :: x in order + [k] ==> x in found
    ensures EnsureJobs(cfg, env, snap, JobsFor(reg, found, order + [k]), st)
         == EnsureJobs(cfg, env, snap, HostJobs(reg, found[k]), EnsureJobs(cfg, env, snap, JobsFor(reg, found, order), st))
  {
    assert (order + [k])[..|order|] == order;
    EnsureJobsAppend(cfg, env, snap, JobsFor(reg, found, order), HostJobs(reg, found[k]), st);
  }

  // ---- The memory of which provider wrote what ----

  function AppendUnique(s: seq<string>, x: string): seq<string> {
    if x in s then s else s + [x]
  }

  function Remember(m: map<string, seq<string>>, host: string, provider: string): map<string, seq<string>> {
    m[host := AppendUnique(if host in m then m[host] else [], provider)]
  }

  function MappingOf(actions: seq<Action>): map<string, seq<string>> {
    if actions == [] then map[]
    else
      var a := actions[|actions| - 1];
      var m := MappingOf(actions[..|actions| - 1]);
      if a.provider != "" && !a.kind.Skipped? then Remember(m, a.host, a.provider) else m
  }

  // ---- Orphans ----

  datatype Proc = Proc(known: set<string>, mapping: map<string, seq<string>>, rec: map<string, Meta>)

  function Orphans(known: set<string>, found: Found): set<string> {
    known - found.Keys
  }

  /** More than half, and more than one, of the known hosts are gone. */
  predicate Tripped(known: set<string>, found: Found) {
    2 * |Orphans(known, found)| > |known| && |Orphans(known, found)| > 1
  }

  function FindAll(reg: Registry, names: seq<string>): Registry {
    if names == [] then []
    else
      var n := |names| - 1;
      var inst := Find(reg, names[n]);
      FindAll(reg, names[..n]) + (if inst.Some? then [inst.value] else [])
  }

  function MatchingDomains(reg: Registry, host: string): Registry {
    if reg == [] then []
    else
      var n := |reg| - 1;
      MatchingDomains(reg[..n], host) + (if Glob.Handles(reg[n].domains, host) then [reg[n]] else [])
  }

  function OrphanProviders(reg: Registry, mapping: map<string, seq<string>>, host: string): Registry {
    if host in mapping && mapping[host] != [] then FindAll(reg, mapping[host]) else MatchingDomains(reg, host)
  }

  function ByName(s: Store, name: string, dataOnly: bool): (t: Store)
    ensures forall r :: r in t <==> r in s && Normalize(r.host) == name && (dataOnly ==> IsData(r.rtype))
  {
    if s == [] then []
    else
      var n := |s| - 1;
      assert s == s[..n] + [s[n]];
      ByName(s[..n], name, dataOnly) +
      (if Normalize(s[n].host) == name && (dataOnly ==> IsData(s[n].rtype)) then [s[n]] else [])
  }

  ghost function RecordsToClean(
    env: Env, inst: Instance, host: string, snap: Snapshot, dataOnly: bool, w: World): (World, Option<Store>)
  {
    var cached := Cached(snap, inst, host);
    if cached.Some? && cached.value != [] then (w, cached)
    else
      var (w1, listed) := Listed(env, inst, w);
      (w1, if listed.Some? then Some(ByName(listed.value, host, dataOnly)) else None)
  }

  /** Which of the records found a mode lets go. */
  predicate Removable(cfg: Config, inst: Instance, r: Record) {
    match inst.mode
    case Additive => false
    case Authoritative => r.rtype in inst.types && !r.rtype.TXT?
    case Managed =>
      cfg.tracking && !inst.ownershipTXT ==> r.rtype == inst.rtype && r.target == inst.target
  }

  function RemovalCall(cfg: Config, inst: Instance, host: string, r: Record): Call {
    if inst.mode.Managed? && cfg.tracking && !inst.ownershipTXT then DeleteByTarget(inst, host, r)
    else DeleteData(inst, host, r)
  }

  function RemovalCalls(cfg: Config, inst: Instance, host: string, records: Store): (calls: seq<Call>)
    ensures forall c :: c in calls ==>
              exists r :: r in records && Removable(cfg, inst, r) && c == RemovalCall(cfg, inst, host, r)
  {
    if records == [] then []
    else
      var n := |records| - 1;
      assert records == records[..n] + [records[n]];
      RemovalCalls(cfg, inst, host, records[..n]) +
      (if Removable(cfg, inst, records[n]) then [RemovalCall(cfg, inst, host, records[n])] else [])
  }

  /** The marker is named without its metadata. */
  ghost function UnmarkCall(cfg: Config, inst: Instance, host: string): Call {
    Call(inst.identity, Delete(MarkerRecord(inst, host, cfg.instanceID, map[])))
  }

  /** A dry run holds back every deletion but those made without tracking in managed mode. */
  predicate HoldsBack(cfg: Config, inst: Instance) {
    cfg.dryRun && (inst.mode.Authoritative? || cfg.tracking)
  }

  predicate Unmarks(cfg: Config, inst: Instance) {
    cfg.tracking && !cfg.dryRun && (inst.mode.Authoritative? || inst.ownershipTXT)
  }

  /** Managed mode with tracking, at a provider that can store markers, asks for the marker first. */
  predicate NeedsMarker(cfg: Config, inst: Instance) {
    inst.mode.Managed? && cfg.tracking && inst.ownershipTXT
  }

  predicate DataOnly(cfg: Config, inst: Instance) {
    inst.mode.Managed? && (inst.ownershipTXT || !cfg.tracking)
  }

  ghost function CleanOne(
    cfg: Config, env: Env, snap: Snapshot, host: string, inst: Instance, w: World): World
  {
    if inst.mode.Additive? then w
    else if NeedsMarker(cfg, inst) && !Owned(snap, inst, host, cfg.instanceID) then w
    else
      var (w1, records) := RecordsToClean(env, inst, host, snap, DataOnly(cfg, inst), w);
      if records.None? then w1
      else
        var w2 := if HoldsBack(cfg, inst) then w1
                  else PerformAll(w1, env, RemovalCalls(cfg, inst, host, records.value));
        if Unmarks(cfg, inst) then Perform(w2, env, UnmarkCall(cfg, inst, host)) else w2
  }

  datatype Sweep = Sweep(host: string, inst: Instance)

  function HostSweeps(reg: Registry, mapping: map<string, seq<string>>, host: string): seq<Sweep> {
    var ps := OrphanProviders(reg, mapping, host);
    seq(|ps|, i requires 0 <= i < |ps| => Sweep(host, ps[i]))
  }

  function SweepsFor(reg: Registry, mapping: map<string, seq<string>>, order: seq<string>): seq<Sweep> {
    if order == [] then []
    else
      var n := |order| - 1;
      SweepsFor(reg, mapping, order[..n]) + HostSweeps(reg, mapping, order[n])
  }

  ghost function CleanAll(cfg: Config, env: Env, snap: Snapshot, sweeps: seq<Sweep>, w: World): World {
    if sweeps == [] then w
    else
      var s := sweeps[|sweeps| - 1];
      CleanOne(cfg, env, snap, s.host, s.inst, CleanAll(cfg, env, snap, sweeps[..|sweeps| - 1], w))
  }

  // ---- A cycle ----

  /** The orders in which the two map iterations of a cycle happen to visit their keys. */
  datatype Orders = Orders(hosts: seq<string>, orphans: seq<string>)

  ghost predicate Enumerates(order: seq<string>, s: set<string>) {
    (forall i, j :: 0 <= i < j < |order| ==> order[i] != order[j]) && (forall k :: k in order <==> k in s)
  }

  lemma EnumerationSize(order: seq<string>, s: set<string>)
    requires Enumerates(order, s)
    ensures |order| == |s|
    decreases |order|
  {
    if order == [] {
      assert forall x :: x in s ==> x in order;
      assert s == {};
    } else {
      var n := |order| - 1;
      assert order[n] in order;
      assert forall k :: k in order[..n] ==> k in order && k != order[n];
      assert forall k :: k in order ==> k in order[..n] || k == order[n];
      EnumerationSize(order[..n], s - {order[n]});
    }
  }

  lemma SomeOrder(s: set<string>) returns (order: seq<string>)
    ensures Enumerates(order, s)
    decreases |s|
  {
    order := [];
    if s != {} {
      var x :| x in s;
      order := SomeOrder(s - {x});
      order := order + [x];
    }
  }

  ghost predicate OrdersFit(o: Orders, proc: Proc, found: Found) {
    Enumerates(o.hosts, found.Keys) && Enumerates(o.orphans, Orphans(proc.known, found))
  }

  /** A process and the world, while the process is alive or after it panicked. */
  datatype Pass = Pass(proc: Proc, w: World, alive: bool)

  ghost function AfterEnsure(
    cfg: Config, env: Env, reg: Registry, found: Found, hosts: seq<string>, proc: Proc, w: World): (Progress, Snapshot)
    requires forall k :: k in hosts ==> k in found
  {
    var (w1, snap) := TakeSnapshot(env, reg, w);
    (EnsureJobs(cfg, env, snap, JobsFor(reg, found, hosts), Progress(w1, proc.rec, [], true)), snap)
  }

  ghost function Cycle(
    cfg: Config, env: Env, reg: Registry, found: Found, o: Orders, proc: Proc, w: World): Pass
    requires OrdersFit(o, proc, found)
  {
    if !cfg.enabled then Pass(proc, w, true)
    else
      var (st, snap) := AfterEnsure(cfg, env, reg, found, o.hosts, proc, w);
      if !st.alive then Pass(proc.(rec := st.rec), st.w, false)
      else
        var w2 := if cfg.cleanup && !Tripped(proc.known, found)
                  then CleanAll(cfg, env, snap, SweepsFor(reg, proc.mapping, o.orphans), st.w) else st.w;
        Pass(Proc(found.Keys, MappingOf(st.actions), st.rec), w2, true)
  }

  lemma CycleRemembers(cfg: Config, env: Env, reg: Registry, found: Found, o: Orders, proc: Proc, w: World)
    requires cfg.enabled && OrdersFit(o, proc, found)
    requires Cycle(cfg, env, reg, found, o, proc, w).alive
    ensures Cycle(cfg, env, reg, found, o, proc, w).proc.known == found.Keys
  {
  }

  // ---- Recovery after a restart ----

  datatype Recovered = Recovered(host: string, meta: Meta)

  predicate Recoverable(r: Record, id: string) {
    r.rtype.TXT? && IsMarkerName(r.host) && Own.MatchesOwnership(r.target, id)
  }

  function RecoveredOf(r: Record): Recovered {
    Recovered(MarkedHost(r.host), Own.ParseValue(r.target).meta)
  }

  function RecoverFrom(s: Store, id: string): (t: seq<Recovered>)
    ensures forall x :: x in t ==> exists r :: r in s && Recoverable(r, id) && x == RecoveredOf(r)
    ensures forall r :: r in s && Recoverable(r, id) ==> RecoveredOf(r) in t
  {
    if s == [] then []
    else
      var n := |s| - 1;
      assert s == s[..n] + [s[n]];
      RecoverFrom(s[..n], id) + (if Recoverable(s[n], id) then [RecoveredOf(s[n])] else [])
  }

  function Learn(proc: Proc, provider: string, hosts: seq<Recovered>): Proc {
    if hosts == [] then proc
    else
      var p := Learn(proc, provider, hosts[..|hosts| - 1]);
      var x := hosts[|hosts| - 1];
      var host := Normalize(x.host);
      Proc(p.known + {host}, Remember(p.mapping, host, provider),
           if x.meta != map[] then p.rec[host := x.meta] else p.rec)
  }

  ghost function RecoverAll(cfg: Config, env: Env, reg: Registry, proc: Proc, w: World): Pass {
    if reg == [] then Pass(proc, w, true)
    else
      var n := |reg| - 1;
      var p := RecoverAll(cfg, env, reg[..n], proc, w);
      var (w1, listed) := Listed(env, reg[n], p.w);
      Pass(if listed.Some? then Learn(p.proc, reg[n].name, RecoverFrom(listed.value, cfg.instanceID)) else p.proc, w1, true)
  }

  /** RecoverOwnership: the recovered metadata replaces what was there. */
  ghost function Recover(cfg: Config, env: Env, reg: Registry, proc: Proc, w: World): Pass {
    if !cfg.cleanup || !cfg.tracking then Pass(proc, w, true)
    else RecoverAll(cfg, env, reg, proc.(rec := map[]), w)
  }
}
