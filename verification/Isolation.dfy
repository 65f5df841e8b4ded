/** Runs of a process among other writers, and why two processes keep out of each other's names. */
module Isolation {
  import opened Wrappers
  import opened Names
  import opened Backend
  import opened Model
  import opened Traces
  import Own = Ownership

  // ---- Runs ----

  /** One turn of a process: a restart with recovery, or a cycle over what was discovered. */
  datatype Turn =
    | Restart(cfg: Config, reg: Registry)
    | Tick(cfg: Config, reg: Registry, found: Found, orders: Orders)

  const NEWBORN := Proc({}, map[], map[])

  /**
   * A dead process takes no cycle.  A tick whose orders do not list the two key sets is not a turn of the
   * program, and changes nothing.
   */
  ghost function Take(env: Env, t: Turn, p: Pass): Pass {
    match t
    case Restart(cfg, reg) => Recover(cfg, env, reg, NEWBORN, p.w)
    case Tick(cfg, reg, found, orders) =>
      if p.alive && OrdersFit(orders, p.proc, found) then Cycle(cfg, env, reg, found, orders, p.proc, p.w) else p
  }

  ghost function Run(env: Env, turns: seq<Turn>, p: Pass): Pass
    decreases |turns|
  {
    if turns == [] then p else Take(env, turns[|turns| - 1], Run(env, turns[..|turns| - 1], p))
  }

  /** What extractHostnames produces: valid names under their canonical form. */
  ghost predicate WellFound(found: Found) {
    forall k :: k in found ==> ValidName(found[k]) && k == Normalize(found[k].name)
  }

  ghost predicate TurnOf(id: string, names: set<string>, t: Turn) {
    && t.cfg.instanceID == id
    && (t.Tick? ==> WellFound(t.found) && t.found.Keys <= names)
  }

  // ---- Names a process may touch ----

  ghost predicate Near(names: set<string>, n: string) {
    exists x :: (x in names || Normalize(x) in names) && (n == Normalize(x) || n == Normalize(Marker(x)))
  }

  ghost predicate WithinNames(names: set<string>, c: Call) {
    forall k :: k in Keys(c.op) ==> Near(names, Normalize(k.host))
  }

  /** The record a call would add, if any. */
  function Added(op: Op): Option<Record> {
    match op
    case Create(r) => Some(r)
    case Update(_, next) => Some(next)
    case _ => None
  }

  /** A call adds no marker of `id` for a name outside `names`. */
  ghost predicate MarksWithin(id: string, names: set<string>, c: Call) {
    var r := Added(c.op);
    r.Some? && Recoverable(r.value, id) ==> Normalize(MarkedHost(r.value.host)) in names
  }

  ghost predicate MarkersWithin(id: string, names: set<string>, stores: map<Identity, Store>) {
    forall sid, r :: sid in stores && r in stores[sid] && Recoverable(r, id)
      ==> Normalize(MarkedHost(r.host)) in names
  }

  ghost predicate OthersKeepOut(id: string, names: set<string>, env: Env) {
    forall n, c :: c in env.others(n) ==> MarksWithin(id, names, c)
  }

  ghost predicate Disciplined(id: string, names: set<string>, c: Call) {
    WithinNames(names, c) && MarksWithin(id, names, c)
  }

  // ---- One call keeps the markers within the names ----

  lemma WriteKeeps(id: string, names: set<string>, stores: map<Identity, Store>, c: Call)
    requires MarkersWithin(id, names, stores) && MarksWithin(id, names, c)
    ensures MarkersWithin(id, names, Write(stores, c))
  {
  }

  lemma {:induction false} InterfereKeeps(id: string, names: set<string>, stores: map<Identity, Store>, calls: seq<Call>)
    requires MarkersWithin(id, names, stores)
    requires forall c :: c in calls ==> MarksWithin(id, names, c)
    ensures MarkersWithin(id, names, Interfere(stores, calls))
    decreases |calls|
  {
    if calls != [] {
      assert calls[0] in calls && forall c :: c in calls[1..] ==> c in calls;
      WriteKeeps(id, names, stores, calls[0]);
      InterfereKeeps(id, names, Write(stores, calls[0]), calls[1..]);
    }
  }

  lemma {:induction false} PerformAllKeeps(id: string, names: set<string>, w: World, env: Env, calls: seq<Call>)
    requires MarkersWithin(id, names, w.stores) && OthersKeepOut(id, names, env)
    requires forall c :: c in calls ==> MarksWithin(id, names, c)
    ensures MarkersWithin(id, names, PerformAll(w, env, calls).stores)
    decreases |calls|
  {
    hide MarksWithin;
    hide MarkersWithin;
    if calls != [] {
      var n := |calls| - 1;
      assert calls[n] in calls && forall c :: c in calls[..n] ==> c in calls;
      PerformAllKeeps(id, names, w, env, calls[..n]);
      var w1 := PerformAll(w, env, calls[..n]);
      InterfereKeeps(id, names, w1.stores, env.others(|w1.log|));
      WriteKeeps(id, names, Interfere(w1.stores, env.others(|w1.log|)), calls[n]);
    }
  }

  // ---- Every call of a process is disciplined ----

  lemma ValidNotMarkerName(h: Hostname)
    requires ValidName(h)
    requires h.hints.None? || h.hints.value.rtype != Some(SRV)
    ensures !IsMarkerName(h.name)
  {
    hide ValidHost;
    if IsMarkerName(h.name) {
      MarkerRoundTrip("x", h.name);
      ValidHostNotMarker(h.name, MarkedHost(h.name));
      assert false;
    }
  }

  lemma WantedNotRecoverable(h: Hostname, inst: Instance, id: string)
    requires ValidName(h)
    ensures !Recoverable(WantedRecord(h, inst), id)
  {
    if h.hints.None? || h.hints.value.rtype != Some(SRV) {
      ValidNotMarkerName(h);
    }
  }

  lemma JobCallNames(cfg: Config, inst: Instance, want: Record, meta: Meta, c: Call, k: Record)
    requires JobCall(cfg, inst, want, meta, c) && k in Keys(c.op)
    ensures Normalize(k.host) == Normalize(want.host) || Normalize(k.host) == Normalize(Marker(want.host))
  {
  }

  lemma JobCallAdds(cfg: Config, inst: Instance, want: Record, meta: Meta, c: Call)
    requires JobCall(cfg, inst, want, meta, c)
    ensures var r := Added(c.op);
            r.Some? ==> r.value == want || r.value == MarkerRecord(inst, want.host, cfg.instanceID, meta)
  {
  }

  lemma JobCallDisciplined(id: string, names: set<string>, cfg: Config, h: Hostname, inst: Instance, meta: Meta, c: Call)
    requires cfg.instanceID == id && ValidName(h) && Normalize(h.name) in names
    requires JobCall(cfg, inst, WantedRecord(h, inst), meta, c)
    ensures Disciplined(id, names, c)
  {
    var want := WantedRecord(h, inst);
    WantedNotRecoverable(h, inst, id);
    FirstLabels(h.name);
    MarkerRoundTrip(h.name, "");
    JobCallAdds(cfg, inst, want, meta, c);
    assert Near(names, Normalize(h.name)) && Near(names, Normalize(Marker(h.name)));
    forall k | k in Keys(c.op) ensures Near(names, Normalize(k.host)) {
      JobCallNames(cfg, inst, want, meta, c, k);
    }
  }

  lemma SweepCallDisciplined(id: string, names: set<string>, cfg: Config, s: Sweep, c: Call)
    requires s.host in names
    requires SweepCall(cfg, s, c)
    ensures Disciplined(id, names, c)
  {
    hide Normalize;
    forall k | k in Keys(c.op) ensures Near(names, Normalize(k.host)) {
      assert Normalize(k.host) == Normalize(s.host) || Normalize(k.host) == Normalize(Marker(s.host));
    }
  }

  lemma CycleCalls(cfg: Config, env: Env, reg: Registry, found: Found, o: Orders, proc: Proc, w: World)
    returns (calls: seq<Call>, jobs: seq<Job>)
    requires OrdersFit(o, proc, found)
    ensures Cycle(cfg, env, reg, found, o, proc, w).w == PerformAll(w, env, calls)
    ensures forall job :: job in jobs ==>
              exists k :: k in found && job.host == found[k] && (job.writer.Some? ==> job.writer.value in Writers(reg, found[k]))
    ensures forall c :: c in calls ==>
              || c.op.List?
              || JobsCall(cfg, jobs, proc.rec, c)
              || (exists s: Sweep :: s.host in proc.known && s.host !in found && SweepCall(cfg, s, c))
  {
    hide CleanAll;
    hide EnsureJobs;
    hide Tripped;
    hide JobsCall;
    hide MetasOf;
    calls, jobs := [], [];
    if cfg.enabled {
      var (st, snap) := AfterEnsure(cfg, env, reg, found, o.hosts, proc, w);
      jobs := JobsFor(reg, found, o.hosts);
      JobsForOrigin(reg, found, o.hosts);
      calls := SnapshotCalls(env, reg, w);
      var w1 := TakeSnapshot(env, reg, w).0;
      var ensure := EnsureJobsCalls(cfg, env, snap, jobs, Progress(w1, proc.rec, [], true));
      PerformAllAppend(w, env, calls, ensure);
      calls := calls + ensure;
      if st.alive && cfg.cleanup && !Tripped(proc.known, found) {
        var sweeps := SweepsFor(reg, proc.mapping, o.orphans);
        var clean := CleanAllCalls(cfg, env, snap, sweeps, st.w);
        PerformAllAppend(w, env, calls, clean);
        SweepsForPart(reg, proc.mapping, o.orphans);
        forall c | c in clean
          ensures exists s: Sweep :: s.host in proc.known && s.host !in found && SweepCall(cfg, s, c)
        {
          var s :| s in sweeps && AllowedCall(cfg, snap, s, c);
        }
        calls := calls + clean;
      }
    }
  }

  lemma CycleDisciplined(
    id: string, names: set<string>, cfg: Config, env: Env, reg: Registry, found: Found, o: Orders, p: Pass)
    requires cfg.instanceID == id && WellFound(found) && found.Keys <= names && p.proc.known <= names
    requires OrdersFit(o, p.proc, found)
    requires MarkersWithin(id, names, p.w.stores) && OthersKeepOut(id, names, env)
    ensures var q := Cycle(cfg, env, reg, found, o, p.proc, p.w);
            && q.proc.known <= names
            && MarkersWithin(id, names, q.w.stores)
            && Extends(id, names, p.w, q.w)
  {
    var calls, jobs := CycleCalls(cfg, env, reg, found, o, p.proc, p.w);
    forall c | c in calls ensures Disciplined(id, names, c) {
      if c.op.List? {
      } else if JobsCall(cfg, jobs, p.proc.rec, c) {
        var job, meta :| job in jobs && job.writer.Some? && meta in MetasOf(job.host, p.proc.rec)
          && JobCall(cfg, job.writer.value, WantedRecord(job.host, job.writer.value), meta, c);
        JobCallDisciplined(id, names, cfg, job.host, job.writer.value, meta, c);
      } else {
        var s: Sweep :| s.host in p.proc.known && s.host !in found && SweepCall(cfg, s, c);
        SweepCallDisciplined(id, names, cfg, s, c);
      }
    }
    PerformAllKeeps(id, names, p.w, env, calls);
    ExtendsBy(id, names, p.w, env, calls);
  }

  /** The log grew, and by disciplined calls only. */
  ghost predicate Extends(id: string, names: set<string>, w: World, w2: World) {
    && |w.log| <= |w2.log|
    && w2.log[..|w.log|] == w.log
    && forall i :: |w.log| <= i < |w2.log| ==> Disciplined(id, names, w2.log[i].call)
  }

  lemma ExtendsBy(id: string, names: set<string>, w: World, env: Env, calls: seq<Call>)
    requires forall c :: c in calls ==> Disciplined(id, names, c)
    ensures Extends(id, names, w, PerformAll(w, env, calls))
  {
  }

  lemma ExtendsTransitive(id: string, names: set<string>, a: World, b: World, c: World)
    requires Extends(id, names, a, b) && Extends(id, names, b, c)
    ensures Extends(id, names, a, c)
  {
  }

  // ---- Recovery learns only names whose markers are there ----

  lemma {:induction false} RecoverFromWithin(s: Store, id: string, names: set<string>)
    requires forall r :: r in s && Recoverable(r, id) ==> Normalize(MarkedHost(r.host)) in names
    ensures forall x :: x in RecoverFrom(s, id) ==> Normalize(x.host) in names
    decreases |s|
  {
  }

  lemma {:induction false} LearnWithin(proc: Proc, provider: string, hosts: seq<Recovered>, names: set<string>)
    requires proc.known <= names
    requires forall x :: x in hosts ==> Normalize(x.host) in names
    ensures Learn(proc, provider, hosts).known <= names
    decreases |hosts|
  {
    hide Normalize;
    hide Remember;
    if hosts != [] {
      var n := |hosts| - 1;
      assert hosts[n] in hosts && forall x :: x in hosts[..n] ==> x in hosts;
      LearnWithin(proc, provider, hosts[..n], names);
    }
  }

  lemma {:induction false} RecoverDisciplined(
    id: string, names: set<string>, cfg: Config, env: Env, reg: Registry, proc: Proc, w: World)
    requires cfg.instanceID == id && proc.known <= names
    requires MarkersWithin(id, names, w.stores) && OthersKeepOut(id, names, env)
    ensures var q := RecoverAll(cfg, env, reg, proc, w);
            && q.proc.known <= names
            && MarkersWithin(id, names, q.w.stores)
            && Extends(id, names, w, q.w)
    decreases |reg|
  {
    if reg != [] {
      var n := |reg| - 1;
      RecoverDisciplined(id, names, cfg, env, reg[..n], proc, w);
      var p := RecoverAll(cfg, env, reg[..n], proc, w);
      var c := Call(reg[n].identity, List);
      PerformAllOne(p.w, env, c);
      PerformAllKeeps(id, names, p.w, env, [c]);
      ExtendsBy(id, names, p.w, env, [c]);
      var (w1, listed) := Listed(env, reg[n], p.w);
      ExtendsTransitive(id, names, w, p.w, w1);
      if listed.Some? {
        RecoverFromWithin(listed.value, id, names);
        LearnWithin(p.proc, reg[n].name, RecoverFrom(listed.value, id), names);
      }
    }
  }

  ghost predicate Contained(id: string, names: set<string>, p: Pass) {
    p.proc.known <= names && MarkersWithin(id, names, p.w.stores)
  }

  lemma TakeFootprint(id: string, names: set<string>, env: Env, t: Turn, p: Pass)
    requires TurnOf(id, names, t) && Contained(id, names, p) && OthersKeepOut(id, names, env)
    ensures Contained(id, names, Take(env, t, p)) && Extends(id, names, p.w, Take(env, t, p).w)
  {
    match t
    case Restart(cfg, reg) =>
      if cfg.cleanup && cfg.tracking {
        RecoverDisciplined(id, names, cfg, env, reg, NEWBORN.(rec := map[]), p.w);
      }
    case Tick(cfg, reg, found, orders) =>
      if OrdersFit(orders, p.proc, found) {
        CycleDisciplined(id, names, cfg, env, reg, found, orders, p);
      }
  }

  /**
   * Footprint of a process over any run, with restarts, failures and other writers: every name it
   * lists in a call is near a name it discovered or had a marker of its own for at the start.
   */
  lemma {:induction false} RunFootprint(id: string, names: set<string>, env: Env, turns: seq<Turn>, p: Pass)
    requires forall t :: t in turns ==> TurnOf(id, names, t)
    requires Contained(id, names, p) && OthersKeepOut(id, names, env)
    ensures Contained(id, names, Run(env, turns, p)) && Extends(id, names, p.w, Run(env, turns, p).w)
    decreases |turns|
  {
    if turns != [] {
      var n := |turns| - 1;
      assert turns[n] in turns && forall x :: x in turns[..n] ==> x in turns;
      RunFootprint(id, names, env, turns[..n], p);
      TakeFootprint(id, names, env, turns[n], Run(env, turns[..n], p));
      ExtendsTransitive(id, names, p.w, Run(env, turns[..n], p).w, Run(env, turns, p).w);
    }
  }

  // ---- The other process never marks a name as ours ----

  ghost predicate PlainTurn(id: string, t: Turn) {
    && t.cfg.instanceID == id && ',' !in id
    && (t.Tick? ==>
          && WellFound(t.found)
          && forall k :: k in t.found && HintsMeta(t.found[k]) ==> Own.KeepsOwner(id, t.found[k].hints.value.meta))
  }

  ghost predicate PlainRec(id: string, rec: map<string, Meta>) {
    forall k :: k in rec ==> Own.KeepsOwner(id, rec[k])
  }

  ghost predicate MarksOnlyFor(id: string, c: Call) {
    var r := Added(c.op);
    (r.Some? && r.value.rtype.TXT? && IsMarkerName(r.value.host)) ==>
      (exists meta :: Own.KeepsOwner(id, meta) && r.value.target == Own.MakeValue(id, meta))
  }

  lemma MarksOnlyForOne(id: string, other: string, names: set<string>, c: Call)
    requires MarksOnlyFor(id, c) && id != other
    ensures MarksWithin(other, names, c)
  {
    var r := Added(c.op);
    if r.Some? && Recoverable(r.value, other) {
      var meta :| Own.KeepsOwner(id, meta) && r.value.target == Own.MakeValue(id, meta);
      Own.MatchesOneInstance(id, meta, other);
    }
  }

  lemma JobCallPlain(id: string, cfg: Config, h: Hostname, inst: Instance, meta: Meta, c: Call)
    requires cfg.instanceID == id && ValidName(h) && Own.KeepsOwner(id, meta)
    requires JobCall(cfg, inst, WantedRecord(h, inst), meta, c)
    ensures MarksOnlyFor(id, c)
  {
    var want := WantedRecord(h, inst);
    JobCallAdds(cfg, inst, want, meta, c);
    if h.hints.None? || h.hints.value.rtype != Some(SRV) {
      ValidNotMarkerName(h);
    }
  }

  lemma MetasPlain(id: string, h: Hostname, rec: map<string, Meta>)
    requires ',' !in id && PlainRec(id, rec)
    requires HintsMeta(h) ==> Own.KeepsOwner(id, h.hints.value.meta)
    ensures forall m :: m in MetasOf(h, rec) ==> Own.KeepsOwner(id, m)
  {
    hide Own.KeepsOwner;
    Own.SafeKeepsOwner(id, map[]);
  }

  ghost predicate ExtendsPlainly(id: string, w: World, w2: World) {
    && |w.log| <= |w2.log|
    && w2.log[..|w.log|] == w.log
    && forall i :: |w.log| <= i < |w2.log| ==> MarksOnlyFor(id, w2.log[i].call)
  }

  lemma PlainBy(id: string, w: World, env: Env, calls: seq<Call>)
    requires forall c :: c in calls ==> MarksOnlyFor(id, c)
    ensures ExtendsPlainly(id, w, PerformAll(w, env, calls))
  {
  }

  lemma LearnPlain(id: string, proc: Proc, provider: string, s: Store)
    requires PlainRec(id, proc.rec)
    ensures PlainRec(id, Learn(proc, provider, RecoverFrom(s, id)).rec)
  {
    var hosts := RecoverFrom(s, id);
    forall x | x in hosts ensures Own.KeepsOwner(id, x.meta) {
      var r :| r in s && Recoverable(r, id) && x == RecoveredOf(r);
      RecoveredPlain(id, r);
    }
    LearnHostsPlain(id, proc, provider, hosts);
  }

  lemma RecoveredPlain(id: string, r: Record)
    requires Recoverable(r, id)
    ensures Own.KeepsOwner(id, RecoveredOf(r).meta)
  {
    Own.ParsedIsSafe(r.target);
    Own.SafeKeepsOwner(id, RecoveredOf(r).meta);
  }

  lemma LearnLast(id: string, proc: Proc, provider: string, hosts: seq<Recovered>)
    requires hosts != []
    ensures var n := |hosts| - 1;
            var rec := Learn(proc, provider, hosts[..n]).rec;
            Learn(proc, provider, hosts).rec == if hosts[n].meta != map[] then rec[Normalize(hosts[n].host) := hosts[n].meta] else rec
  {
    hide Normalize;
    hide Remember;
  }

  lemma {:induction false} LearnHostsPlain(id: string, proc: Proc, provider: string, hosts: seq<Recovered>)
    requires PlainRec(id, proc.rec) && forall x :: x in hosts ==> Own.KeepsOwner(id, x.meta)
    ensures PlainRec(id, Learn(proc, provider, hosts).rec)
    decreases |hosts|
  {
    hide Own.KeepsOwner;
    hide Normalize;
    hide Learn;
    if hosts == [] {
      LearnNone(proc, provider);
    } else {
      var n := |hosts| - 1;
      assert hosts[n] in hosts && forall x :: x in hosts[..n] ==> x in hosts;
      LearnHostsPlain(id, proc, provider, hosts[..n]);
      LearnLast(id, proc, provider, hosts);
    }
  }

  lemma LearnNone(proc: Proc, provider: string)
    ensures Learn(proc, provider, []) == proc
  {
  }

  lemma {:induction false} RecoverPlain(id: string, cfg: Config, env: Env, reg: Registry, proc: Proc, w: World)
    requires cfg.instanceID == id && PlainRec(id, proc.rec)
    ensures PlainRec(id, RecoverAll(cfg, env, reg, proc, w).proc.rec)
    decreases |reg|
  {
    if reg != [] {
      var n := |reg| - 1;
      RecoverPlain(id, cfg, env, reg[..n], proc, w);
      var p := RecoverAll(cfg, env, reg[..n], proc, w);
      var listed := Listed(env, reg[n], p.w).1;
      if listed.Some? {
        LearnPlain(id, p.proc, reg[n].name, listed.value);
      }
    }
  }

  lemma CycleRec(id: string, cfg: Config, env: Env, reg: Registry, found: Found, o: Orders, p: Pass)
    requires OrdersFit(o, p.proc, found) && PlainRec(id, p.proc.rec)
    ensures PlainRec(id, Cycle(cfg, env, reg, found, o, p.proc, p.w).proc.rec)
  {
    if cfg.enabled {
      var (w1, snap) := TakeSnapshot(env, reg, p.w);
      var _ := EnsureJobsCalls(cfg, env, snap, JobsFor(reg, found, o.hosts), Progress(w1, p.proc.rec, [], true));
    }
  }

  lemma TakeRec(id: string, env: Env, t: Turn, p: Pass)
    requires t.cfg.instanceID == id && PlainRec(id, p.proc.rec)
    ensures PlainRec(id, Take(env, t, p).proc.rec)
  {
    hide Cycle;
    hide PlainRec;
    match t
    case Restart(cfg, reg) =>
      NoRec(id);
      RecoverPlain(id, cfg, env, reg, NEWBORN, p.w);
    case Tick(cfg, reg, found, orders) =>
      if p.alive && OrdersFit(orders, p.proc, found) { CycleRec(id, cfg, env, reg, found, orders, p); }
  }

  lemma NoRec(id: string)
    ensures PlainRec(id, map[])
  {
  }

  /** What a process remembers from its own markers never gives another ID. */
  lemma {:induction false} RunRec(id: string, env: Env, turns: seq<Turn>, p: Pass)
    requires (forall t :: t in turns ==> t.cfg.instanceID == id) && PlainRec(id, p.proc.rec)
    ensures PlainRec(id, Run(env, turns, p).proc.rec)
    decreases |turns|
  {
    hide PlainRec;
    hide Take;
    if turns != [] {
      var n := |turns| - 1;
      assert turns[n] in turns && forall t :: t in turns[..n] ==> t in turns;
      RunRec(id, env, turns[..n], p);
      TakeRec(id, env, turns[n], Run(env, turns[..n], p));
    }
  }

  lemma CyclePlain(id: string, cfg: Config, env: Env, reg: Registry, found: Found, o: Orders, p: Pass)
    requires PlainTurn(id, Tick(cfg, reg, found, o)) && PlainRec(id, p.proc.rec)
    requires OrdersFit(o, p.proc, found)
    ensures var q := Cycle(cfg, env, reg, found, o, p.proc, p.w);
            ExtendsPlainly(id, p.w, q.w)
  {
    var calls, jobs := CycleCalls(cfg, env, reg, found, o, p.proc, p.w);
    forall c | c in calls ensures MarksOnlyFor(id, c) {
      if !c.op.List? && JobsCall(cfg, jobs, p.proc.rec, c) {
        var job, meta :| job in jobs && job.writer.Some? && meta in MetasOf(job.host, p.proc.rec)
          && JobCall(cfg, job.writer.value, WantedRecord(job.host, job.writer.value), meta, c);
        MetasPlain(id, job.host, p.proc.rec);
        JobCallPlain(id, cfg, job.host, job.writer.value, meta, c);
      }
    }
    PlainBy(id, p.w, env, calls);
  }

  lemma TakePlain(id: string, env: Env, t: Turn, p: Pass)
    requires PlainTurn(id, t) && PlainRec(id, p.proc.rec)
    ensures ExtendsPlainly(id, p.w, Take(env, t, p).w)
  {
    match t
    case Restart(cfg, reg) =>
      if cfg.cleanup && cfg.tracking {
        var blank := NEWBORN.(rec := map[]);
        var calls := RecoverCalls(cfg, env, reg, blank, p.w);
        PlainBy(id, p.w, env, calls);
      }
    case Tick(cfg, reg, found, orders) =>
      if OrdersFit(orders, p.proc, found) {
        CyclePlain(id, cfg, env, reg, found, orders, p);
      }
  }

  /** Whatever happens around it, a process whose ID has no comma and whose metadata keeps it marks names only as its own. */
  lemma {:induction false} RunPlain(id: string, env: Env, turns: seq<Turn>, p: Pass)
    requires forall t :: t in turns ==> PlainTurn(id, t)
    requires PlainRec(id, p.proc.rec)
    ensures PlainRec(id, Run(env, turns, p).proc.rec) && ExtendsPlainly(id, p.w, Run(env, turns, p).w)
    decreases |turns|
  {
    if turns != [] {
      var n := |turns| - 1;
      assert turns[n] in turns && forall x :: x in turns[..n] ==> x in turns;
      RunPlain(id, env, turns[..n], p);
      RunRec(id, env, turns, p);
      RunRec(id, env, turns[..n], p);
      var q := Run(env, turns[..n], p);
      TakePlain(id, env, turns[n], q);
      var w2 := Run(env, turns, p).w;
      assert w2.log[..|p.w.log|] == w2.log[..|q.w.log|][..|p.w.log|];
      forall i | |p.w.log| <= i < |w2.log| ensures MarksOnlyFor(id, w2.log[i].call) {
        if i < |q.w.log| {
          assert w2.log[i] == w2.log[..|q.w.log|][i];
          assert MarksOnlyFor(id, q.w.log[i].call);
        }
      }
    }
  }

  // ---- Isolation ----

  /** `host` is not a name, nor a marker name, of any of `names`. */
  ghost predicate Apart(names: set<string>, host: string) {
    !Near(names, Normalize(host)) && !Near(names, Normalize(Marker(host)))
  }

  /** Among valid names, being apart is just not being one of them. */
  lemma ApartAmongValid(names: set<string>, host: string)
    requires ValidHost(host) || ValidService(host)
    requires forall x :: x in names ==> (ValidHost(x) || ValidService(x)) && Normalize(x) == x
    ensures Apart(names, host) <==> Normalize(host) !in names
  {
    FirstLabels(host);
    if Normalize(host) in names {
      assert Near(names, Normalize(host));
    } else {
      forall x | x in names || Normalize(x) in names
        ensures Normalize(x) != Normalize(host) && Normalize(Marker(x)) != Normalize(Marker(host))
        ensures Normalize(x) != Normalize(Marker(host)) && Normalize(Marker(x)) != Normalize(host)
      {
        var y := Normalize(x);
        assert y in names;
        FirstLabels(y);
        assert x != "" by { assert Normalize("") == ""; }
        MarkerInjective(x, host);
        MarkerInjective(x, y);
        ValidNeverMarker(y, host);
        ValidNeverMarker(host, y);
      }
    }
  }

  /**
   * Process isolation.  Two processes with different IDs share stores; whatever the other one's run
   * `turns2` does is interleaved anywhere between the calls of the first one's run `turns`.  If the
   * first discovers only `names` and starts with markers of its own only for `names`, then in every
   * such run none of its calls mentions the name, or the marker name, of a host apart from `names`.
   */
  lemma ProcessIsolation(
    id: string, names: set<string>, env: Env, turns: seq<Turn>, p: Pass,
    id2: string, env2: Env, turns2: seq<Turn>, p2: Pass, host: string)
    requires id != id2
    requires forall t :: t in turns ==> TurnOf(id, names, t)
    requires Contained(id, names, p)
    requires forall t :: t in turns2 ==> PlainTurn(id2, t)
    requires PlainRec(id2, p2.proc.rec)
    requires forall n, c :: c in env.others(n) ==> MadeIn(env2, turns2, p2, c)
    requires Apart(names, host)
    ensures var log := Run(env, turns, p).w.log;
            forall i, k :: |p.w.log| <= i < |log| && k in Keys(log[i].call.op) ==>
              Normalize(k.host) != Normalize(host) && Normalize(k.host) != Normalize(Marker(host))
  {
    RunPlain(id2, env2, turns2, p2);
    forall n, c | c in env.others(n) ensures MarksWithin(id, names, c) {
      assert MadeIn(env2, turns2, p2, c);
      var log2 := Run(env2, turns2, p2).w.log;
      var i :| |p2.w.log| <= i < |log2| && log2[i].call == c;
      assert MarksOnlyFor(id2, log2[i].call);
      MarksOnlyForOne(id2, id, names, c);
    }
    RunFootprint(id, names, env, turns, p);
    var log := Run(env, turns, p).w.log;
    forall i, k | |p.w.log| <= i < |log| && k in Keys(log[i].call.op)
      ensures Normalize(k.host) != Normalize(host) && Normalize(k.host) != Normalize(Marker(host))
    {
      assert Disciplined(id, names, log[i].call);
      assert Near(names, Normalize(k.host));
    }
  }

  /** The call is one the run made. */
  ghost predicate MadeIn(env: Env, turns: seq<Turn>, p: Pass, c: Call) {
    var log := Run(env, turns, p).w.log;
    exists i :: |p.w.log| <= i < |log| && log[i].call == c
  }
}
