/** What ensuring one host does to the store of one instance, when no call fails. */
module Settling {
  import opened Wrappers
  import opened Names
  import opened Backend
  import opened Model
  import opened Traces
  import Own = Ownership

  /** The records that decisions about `want` look at. */
  predicate Relevant(want: Record, r: Record) {
    || (Normalize(r.host) == Normalize(want.host) && (IsData(r.rtype) || r.rtype == want.rtype))
    || (Normalize(r.host) == Normalize(Marker(want.host)) && r.rtype.TXT?)
  }

  ghost predicate Agree(want: Record, s: Store, t: Store) {
    forall r :: Relevant(want, r) ==> (r in s <==> r in t)
  }

  predicate DataOf(want: Record, r: Record) {
    IsData(r.rtype) && Normalize(r.host) == Normalize(want.host)
  }

  ghost predicate Clashes(want: Record, s: Store) {
    exists r :: r in s && DataOf(want, r) && r.rtype != want.rtype
  }

  /** The wanted record is there, for the types a snapshot shows. */
  ghost predicate Shown(want: Record, s: Store) {
    exists r :: r in s && DataOf(want, r) && r.rtype == want.rtype && Exact(want, r)
  }

  ghost predicate NoOutdated(want: Record, s: Store) {
    forall r :: r in s && DataOf(want, r) ==> !Outdated(want, r)
  }

  ghost predicate Tidy(want: Record, s: Store) {
    Clashes(want, s) || NoOutdated(want, s)
  }

  ghost predicate MarkedOrPrinted(cfg: Config, inst: Instance, want: Record, meta: Meta, s: Store) {
    Marked(s, want.host, cfg.instanceID) || Has(s, MarkerRecord(inst, want.host, cfg.instanceID, meta))
  }

  /** Ensuring `want` again, with metadata `meta`, would change nothing. */
  ghost predicate Settled(cfg: Config, inst: Instance, want: Record, meta: Meta, s: Store) {
    || Clashes(want, s)
    || (Shown(want, s) && NoOutdated(want, s)
        && (cfg.tracking && cfg.adopt ==> MarkedOrPrinted(cfg, inst, want, meta, s)))
    || ((forall r :: r in s ==> !DataOf(want, r)) && Has(s, want)
        && (cfg.tracking ==> MarkedOrPrinted(cfg, inst, want, meta, s)))
  }

  // ---- Settled looks at relevant records only ----

  lemma HasAgrees(want: Record, k: Record, s: Store, t: Store)
    requires Agree(want, s, t) && Relevant(want, k)
    ensures Has(s, k) <==> Has(t, k)
  {
  }

  lemma SettledAgrees(cfg: Config, inst: Instance, want: Record, meta: Meta, s: Store, t: Store)
    requires Agree(want, s, t) && Settled(cfg, inst, want, meta, s)
    ensures Settled(cfg, inst, want, meta, t)
  {
  }

  lemma TidyAgrees(want: Record, s: Store, t: Store)
    requires Agree(want, s, t) && Tidy(want, s)
    ensures Tidy(want, t)
  {
  }

  // ---- The steps ----

  lemma QuietAt(w: World, env: Env, c: Call)
    requires Quiet(env)
    ensures At(Perform(w, env, c).stores, c.id) == Effect(At(w.stores, c.id), c.op)
    ensures forall id :: id != c.id ==> At(Perform(w, env, c).stores, id) == At(w.stores, id)
  {
  }

  /** After the stale records are deleted, what is left is what had none of their keys. */
  lemma {:induction false} StaleDeleted(env: Env, inst: Instance, host: string, stale: Store, w: World)
    requires Quiet(env)
    ensures var s := At(w.stores, inst.identity);
            var t := At(PerformAll(w, env, StaleCalls(inst, host, stale)).stores, inst.identity);
            forall r :: r in t <==> r in s && !KeyOfStale(host, stale, r)
    decreases |stale|
  {
    if stale != [] {
      var n := |stale| - 1;
      var calls := StaleCalls(inst, host, stale);
      assert calls[..n] == StaleCalls(inst, host, stale[..n]);
      StaleDeleted(env, inst, host, stale[..n], w);
      QuietAt(PerformAll(w, env, calls[..n]), env, calls[n]);
      forall r ensures KeyOfStale(host, stale, r)
                  <==> KeyOfStale(host, stale[..n], r) || SameKey(r, Record(host, SRV, stale[n].target, 0, stale[n].srv))
      {
        assert forall x :: x in stale <==> x in stale[..n] || x == stale[n];
      }
    }
  }

  ghost predicate KeyOfStale(host: string, stale: Store, r: Record) {
    exists x :: x in stale && SameKey(r, Record(host, SRV, x.target, 0, x.srv))
  }

  /** The store once the stale records of a plan are gone. */
  ghost predicate Swept(want: Record, s: Store, t: Store) {
    && (forall r :: r in t ==> r in s)
    && (forall r :: r in s && r !in t ==> DataOf(want, r) && Outdated(want, r) && r.rtype.SRV?)
    && NoOutdated(want, t)
  }

  lemma StaleSwept(env: Env, inst: Instance, want: Record, existing: Store, w: World)
    requires Quiet(env)
    requires var s := At(w.stores, inst.identity);
             forall r :: DataOf(want, r) ==> (r in s <==> r in existing)
    requires forall r :: r in existing ==> DataOf(want, r) && r.rtype == want.rtype
    ensures Swept(want, At(w.stores, inst.identity),
                  At(PerformAll(w, env, StaleCalls(inst, want.host, StaleOf(want, existing))).stores, inst.identity))
  {
    var stale := StaleOf(want, existing);
    var s := At(w.stores, inst.identity);
    var t := At(PerformAll(w, env, StaleCalls(inst, want.host, stale)).stores, inst.identity);
    StaleDeleted(env, inst, want.host, stale, w);
    forall r | r in s && KeyOfStale(want.host, stale, r)
      ensures DataOf(want, r) && Outdated(want, r) && r.rtype.SRV?
    {
      var x :| x in stale && SameKey(r, Record(want.host, SRV, x.target, 0, x.srv));
    }
    forall r | r in s && DataOf(want, r) && Outdated(want, r) ensures KeyOfStale(want.host, stale, r) {
      assert r in stale && SameKey(r, Record(want.host, SRV, r.target, 0, r.srv));
    }
  }

  // ---- The marker ----

  /** Metadata that prints to a value this instance will recognise, or that the next cycle prints again. */
  ghost predicate Steady(id: string, meta: Meta, nextMeta: Meta) {
    meta == nextMeta || Own.KeepsOwner(id, meta)
  }

  lemma MarkerPrinted(cfg: Config, inst: Instance, want: Record, meta: Meta, nextMeta: Meta, s: Store)
    requires Has(s, MarkerRecord(inst, want.host, cfg.instanceID, meta))
    requires Steady(cfg.instanceID, meta, nextMeta)
    ensures MarkedOrPrinted(cfg, inst, want, nextMeta, s)
  {
    var k := MarkerRecord(inst, want.host, cfg.instanceID, meta);
    var r :| r in s && SameKey(r, k);
    if meta != nextMeta {
      Own.MatchesOneInstance(cfg.instanceID, meta, cfg.instanceID);
      assert IsMarkerOf(r, want.host, cfg.instanceID);
    }
  }

  /** Ensuring the marker leaves everything else alone, and leaves the host marked. */
  lemma MarkerEnsured(
    cfg: Config, env: Env, inst: Instance, want: Record, meta: Meta, nextMeta: Meta, owned: bool, w: World)
    requires Quiet(env) && Steady(cfg.instanceID, meta, nextMeta)
    requires owned ==> Marked(At(w.stores, inst.identity), want.host, cfg.instanceID)
    ensures var s := At(w.stores, inst.identity);
            var t := At(EnsureMarker(cfg, env, inst, want.host, meta, owned, w).stores, inst.identity);
            && (forall r :: r in s ==> r in t)
            && (forall r :: r in t && r !in s ==> r.rtype.TXT? && Normalize(r.host) == Normalize(Marker(want.host)))
            && (cfg.tracking ==> MarkedOrPrinted(cfg, inst, want, nextMeta, t))
  {
    if cfg.tracking && !owned {
      var k := MarkerRecord(inst, want.host, cfg.instanceID, meta);
      QuietAt(w, env, MarkCall(cfg, inst, want.host, meta));
      var t := At(EnsureMarker(cfg, env, inst, want.host, meta, owned, w).stores, inst.identity);
      assert Has(t, k) by {
        if !Has(At(w.stores, inst.identity), k) { assert k in t && SameKey(k, k); }
      }
      MarkerPrinted(cfg, inst, want, meta, nextMeta, t);
    }
  }

  lemma ShownStays(want: Record, s: Store, t: Store)
    requires forall r :: r in s ==> r in t
    requires forall r :: r in t && r !in s ==> r.rtype.TXT?
    ensures Shown(want, s) ==> Shown(want, t)
    ensures NoOutdated(want, s) ==> NoOutdated(want, t)
    ensures Clashes(want, s) ==> Clashes(want, t)
    ensures Has(s, want) ==> Has(t, want)
    ensures (forall r :: r in s ==> !DataOf(want, r)) ==> (forall r :: r in t ==> !DataOf(want, r))
  {
  }

  // ---- The plans ----

  lemma PlanCases(want: Record, existing: Store)
    ensures var p := PlanFor(want, existing);
            && (p.Clash? <==> exists r :: r in existing && r.rtype != want.rtype)
            && (p.Keep? ==> p.stale == StaleOf(want, existing) && exists r :: r in existing && Exact(want, r))
            && (p.Change? ==> p.stale == StaleOf(want, existing) && p.prior in existing)
            && (p.Change? ==> forall r :: r in existing ==> !Exact(want, r))
            && (p.Fresh? ==> existing == [])
  {
  }

  /** The snapshot's records of the host, and the store's, are the same. */
  ghost predicate Current(want: Record, existing: Store, s: Store) {
    && (forall r :: r in existing ==> DataOf(want, r))
    && (forall r :: DataOf(want, r) ==> (r in s <==> r in existing))
  }

  lemma KeepSettles(
    cfg: Config, env: Env, inst: Instance, want: Record, meta: Meta, nextMeta: Meta, owned: bool, existing: Store, w: World)
    requires Quiet(env) && Steady(cfg.instanceID, meta, nextMeta)
    requires Current(want, existing, At(w.stores, inst.identity))
    requires owned ==> Marked(At(w.stores, inst.identity), want.host, cfg.instanceID)
    requires PlanFor(want, existing).Keep?
    ensures Settled(cfg, inst, want, nextMeta,
                    At(CarryOut(cfg, env, inst, want, meta, owned, PlanFor(want, existing), w).w.stores, inst.identity))
  {
    PlanCases(want, existing);
    var stale := StaleOf(want, existing);
    var s := At(w.stores, inst.identity);
    var w1 := PerformAll(w, env, StaleCalls(inst, want.host, stale));
    var t := At(w1.stores, inst.identity);
    StaleSwept(env, inst, want, existing, w);
    var e :| e in existing && Exact(want, e);
    assert e in t;
    assert Shown(want, t);
    MarkedSurvives(cfg, inst, want, s, t);
    if owned || cfg.adopt {
      MarkerEnsured(cfg, env, inst, want, meta, nextMeta, owned, w1);
      var u := At(EnsureMarker(cfg, env, inst, want.host, meta, owned, w1).stores, inst.identity);
      ShownStays(want, t, u);
    }
  }

  lemma MarkedSurvives(cfg: Config, inst: Instance, want: Record, s: Store, t: Store)
    requires Swept(want, s, t)
    ensures Marked(s, want.host, cfg.instanceID) ==> Marked(t, want.host, cfg.instanceID)
  {
  }

  /** The update succeeds unless a native updater is handed a record that was just deleted as stale. */
  predicate UpdateMisses(inst: Instance, want: Record, plan: Plan) {
    plan.Change? && inst.nativeUpdate && Outdated(want, plan.prior)
  }

  lemma UpdateEffect(env: Env, inst: Instance, prior: Record, want: Record, w: World)
    requires Quiet(env)
    requires forall r :: r in At(w.stores, inst.identity) && DataOf(want, r) ==> !SameKey(r, want)
    requires DataOf(want, want) && DataOf(want, prior)
    requires prior in At(w.stores, inst.identity) || forall r :: r in At(w.stores, inst.identity) ==> !SameKey(r, prior)
    ensures var s := At(w.stores, inst.identity);
            var (w2, ok) := UpdateRecord(env, inst, prior, want, w);
            var t := At(w2.stores, inst.identity);
            && (ok <==> prior in s || !inst.nativeUpdate)
            && (!ok ==> t == s)
            && (ok ==> forall r :: r in t <==> (r in s && !SameKey(r, prior)) || r == want)
  {
    var s := At(w.stores, inst.identity);
    assert prior in s ==> Has(s, prior) by { assert SameKey(prior, prior); }
    if inst.nativeUpdate {
      QuietAt(w, env, Call(inst.identity, Update(prior, want)));
      QuietPerform(w, env, Call(inst.identity, Update(prior, want)));
      if !Has(s, prior) { ReplaceAbsent(s, prior, want); }
    } else {
      var c := Call(inst.identity, Delete(prior));
      QuietAt(w, env, c);
      QuietPerform(w, env, c);
      var w1 := Perform(w, env, c);
      var t := At(w1.stores, inst.identity);
      assert !Has(t, want) by {
        if r :| r in t && SameKey(r, want) { assert DataOf(want, r); }
      }
      QuietAt(w1, env, Call(inst.identity, Create(want)));
      QuietPerform(w1, env, Call(inst.identity, Create(want)));
    }
  }

  /** The store a change is made to: the record to change is there unless it was stale. */
  lemma BeforeUpdate(env: Env, inst: Instance, want: Record, existing: Store, w: World)
    requires Quiet(env)
    requires Current(want, existing, At(w.stores, inst.identity))
    requires PlanFor(want, existing).Change?
    ensures var prior := PlanFor(want, existing).prior;
            var w1 := PerformAll(w, env, StaleCalls(inst, want.host, StaleOf(want, existing)));
            var t := At(w1.stores, inst.identity);
            && DataOf(want, prior) && DataOf(want, want)
            && Swept(want, At(w.stores, inst.identity), t)
            && (prior in t <==> !Outdated(want, prior))
            && (prior !in t ==> forall r :: r in t ==> !SameKey(r, prior))
            && (forall r :: r in t && DataOf(want, r) ==> !SameKey(r, want))
            && (forall r :: r in t && DataOf(want, r) ==> r.rtype == want.rtype)
  {
    PlanCases(want, existing);
    StaleSwept(env, inst, want, existing, w);
    var s := At(w.stores, inst.identity);
    var t := At(PerformAll(w, env, StaleCalls(inst, want.host, StaleOf(want, existing))).stores, inst.identity);
    AfterSweep(want, existing, PlanFor(want, existing).prior, s, t);
  }

  lemma AfterSweep(want: Record, existing: Store, prior: Record, s: Store, t: Store)
    requires Current(want, existing, s) && Swept(want, s, t) && prior in existing
    requires forall r :: r in existing ==> !Exact(want, r) && r.rtype == want.rtype
    ensures DataOf(want, prior) && DataOf(want, want)
    ensures prior in t <==> !Outdated(want, prior)
    ensures prior !in t ==> forall r :: r in t ==> !SameKey(r, prior)
    ensures forall r :: r in t && DataOf(want, r) ==> !SameKey(r, want) && r.rtype == want.rtype
  {
  }

  lemma ChangeSettles(
    cfg: Config, env: Env, inst: Instance, want: Record, meta: Meta, nextMeta: Meta, owned: bool, existing: Store, w: World)
    requires Quiet(env) && Steady(cfg.instanceID, meta, nextMeta)
    requires Current(want, existing, At(w.stores, inst.identity))
    requires owned ==> Marked(At(w.stores, inst.identity), want.host, cfg.instanceID)
    requires PlanFor(want, existing).Change?
    ensures var step := CarryOut(cfg, env, inst, want, meta, owned, PlanFor(want, existing), w);
            var t := At(step.w.stores, inst.identity);
            && Tidy(want, t)
            && (step.ok <==> !UpdateMisses(inst, want, PlanFor(want, existing)))
            && (step.ok ==> Settled(cfg, inst, want, nextMeta, t) && Shown(want, t))
            && (!step.ok ==> !Has(t, want))
  {
    PlanCases(want, existing);
    var prior := PlanFor(want, existing).prior;
    var w1 := PerformAll(w, env, StaleCalls(inst, want.host, StaleOf(want, existing)));
    BeforeUpdate(env, inst, want, existing, w);
    UpdateEffect(env, inst, prior, want, w1);
    var (w2, ok) := UpdateRecord(env, inst, prior, want, w1);
    if ok {
      AfterUpdate(cfg, inst, want, prior, At(w.stores, inst.identity), At(w1.stores, inst.identity), At(w2.stores, inst.identity));
      MarkerEnsured(cfg, env, inst, want, meta, nextMeta, owned, w2);
      ShownStays(want, At(w2.stores, inst.identity),
                 At(EnsureMarker(cfg, env, inst, want.host, meta, owned, w2).stores, inst.identity));
    }
  }

  lemma AfterUpdate(cfg: Config, inst: Instance, want: Record, prior: Record, s: Store, t: Store, u: Store)
    requires Swept(want, s, t) && DataOf(want, prior) && DataOf(want, want)
    requires forall r :: r in u <==> (r in t && !SameKey(r, prior)) || r == want
    ensures Shown(want, u) && NoOutdated(want, u)
    ensures Marked(s, want.host, cfg.instanceID) ==> Marked(u, want.host, cfg.instanceID)
  {
  }

  /** No data record of the wanted type is there. */
  ghost predicate NoneOfType(want: Record, s: Store) {
    forall r :: r in s && DataOf(want, r) ==> r.rtype != want.rtype
  }

  /** What is there stays, and what is new is the wanted record or a marker of the host. */
  ghost predicate Grows(want: Record, s: Store, t: Store) {
    && (forall r :: r in s ==> r in t)
    && (forall r :: r in t && r !in s ==> r == want || (r.rtype.TXT? && Normalize(r.host) == Normalize(Marker(want.host))))
  }

  lemma FreshGrows(
    cfg: Config, env: Env, inst: Instance, want: Record, meta: Meta, nextMeta: Meta, owned: bool, w: World)
    requires Quiet(env) && Steady(cfg.instanceID, meta, nextMeta)
    requires owned ==> Marked(At(w.stores, inst.identity), want.host, cfg.instanceID)
    ensures var t := At(CarryOut(cfg, env, inst, want, meta, owned, Fresh, w).w.stores, inst.identity);
            && Grows(want, At(w.stores, inst.identity), t)
            && Has(t, want)
            && (cfg.tracking ==> MarkedOrPrinted(cfg, inst, want, nextMeta, t))
  {
    var s := At(w.stores, inst.identity);
    var c := Call(inst.identity, Create(want));
    QuietAt(w, env, c);
    FreshResult(cfg, env, inst, want, meta, owned, w);
    var w1 := Perform(w, env, c);
    var t := At(w1.stores, inst.identity);
    CreateKeeps(want, s, t, cfg.instanceID);
    MarkerEnsured(cfg, env, inst, want, meta, nextMeta, owned, w1);
    ShownStays(want, t, At(EnsureMarker(cfg, env, inst, want.host, meta, owned, w1).stores, inst.identity));
  }

  lemma CreateKeeps(want: Record, s: Store, t: Store, id: string)
    requires t == Effect(s, Create(want))
    ensures (forall r :: r in s ==> r in t) && (forall r :: r in t && r !in s ==> r == want)
    ensures Has(t, want)
    ensures Marked(s, want.host, id) ==> Marked(t, want.host, id)
  {
    if !Has(s, want) { assert want in t && SameKey(want, want); }
    if Marked(s, want.host, id) {
      var m :| m in s && IsMarkerOf(m, want.host, id);
      assert m in t;
    }
  }

  lemma FreshSettles(
    cfg: Config, env: Env, inst: Instance, want: Record, meta: Meta, nextMeta: Meta, owned: bool, w: World)
    requires Quiet(env) && Steady(cfg.instanceID, meta, nextMeta)
    requires Current(want, [], At(w.stores, inst.identity))
    requires owned ==> Marked(At(w.stores, inst.identity), want.host, cfg.instanceID)
    ensures var step := CarryOut(cfg, env, inst, want, meta, owned, Fresh, w);
            var t := At(step.w.stores, inst.identity);
            step.ok && Settled(cfg, inst, want, nextMeta, t) && Has(t, want) && Tidy(want, t)
  {
    hide CarryOut;
    hide Settled;
    hide Tidy;
    hide Grows;
    hide Current;
    hide MarkedOrPrinted;
    hide Steady;
    FreshGrows(cfg, env, inst, want, meta, nextMeta, owned, w);
    FreshOk(cfg, env, inst, want, meta, owned, w);
    GrownSettles(cfg, inst, want, nextMeta, At(w.stores, inst.identity),
                 At(CarryOut(cfg, env, inst, want, meta, owned, Fresh, w).w.stores, inst.identity));
  }

  lemma GrownSettles(cfg: Config, inst: Instance, want: Record, nextMeta: Meta, s: Store, t: Store)
    requires Current(want, [], s) && Grows(want, s, t) && Has(t, want)
    requires cfg.tracking ==> MarkedOrPrinted(cfg, inst, want, nextMeta, t)
    ensures Settled(cfg, inst, want, nextMeta, t) && Tidy(want, t)
  {
    hide MarkedOrPrinted;
    if IsData(want.rtype) {
      var r :| r in t && SameKey(r, want);
      assert DataOf(want, r) && Exact(want, r);
    }
  }

  /** Creating a record beside records of other types. */
  lemma FreshBeside(
    cfg: Config, env: Env, inst: Instance, want: Record, meta: Meta, nextMeta: Meta, owned: bool, w: World)
    requires Quiet(env) && Steady(cfg.instanceID, meta, nextMeta)
    requires IsData(want.rtype) && !want.rtype.SRV? && NoneOfType(want, At(w.stores, inst.identity))
    requires owned ==> Marked(At(w.stores, inst.identity), want.host, cfg.instanceID)
    ensures var step := CarryOut(cfg, env, inst, want, meta, owned, Fresh, w);
            var t := At(step.w.stores, inst.identity);
            step.ok && Settled(cfg, inst, want, nextMeta, t) && Has(t, want) && Tidy(want, t)
  {
    FreshGrows(cfg, env, inst, want, meta, nextMeta, owned, w);
    var t := At(CarryOut(cfg, env, inst, want, meta, owned, Fresh, w).w.stores, inst.identity);
    HasShown(want, t);
    FreshOk(cfg, env, inst, want, meta, owned, w);
  }

  lemma HasShown(want: Record, t: Store)
    requires IsData(want.rtype) && !want.rtype.SRV? && Has(t, want)
    ensures Shown(want, t) && NoOutdated(want, t)
  {
    var r :| r in t && SameKey(r, want);
    assert DataOf(want, r) && Exact(want, r);
  }

  lemma FreshOk(cfg: Config, env: Env, inst: Instance, want: Record, meta: Meta, owned: bool, w: World)
    requires Quiet(env)
    ensures CarryOut(cfg, env, inst, want, meta, owned, Fresh, w).ok
  {
    QuietPerform(w, env, Call(inst.identity, Create(want)));
  }

  /** Presence of the wanted record, or a clash that forbids it. */
  ghost predicate Served(want: Record, s: Store) {
    Clashes(want, s) || Has(s, want)
  }

  lemma ShownHas(want: Record, s: Store)
    requires Shown(want, s)
    ensures Has(s, want)
  {
  }

  lemma CarrySettles(
    cfg: Config, env: Env, inst: Instance, want: Record, meta: Meta, nextMeta: Meta, owned: bool, existing: Store, w: World)
    requires Quiet(env) && Steady(cfg.instanceID, meta, nextMeta)
    requires Current(want, existing, At(w.stores, inst.identity))
    requires owned ==> Marked(At(w.stores, inst.identity), want.host, cfg.instanceID)
    ensures var step := CarryOut(cfg, env, inst, want, meta, owned, PlanFor(want, existing), w);
            var t := At(step.w.stores, inst.identity);
            && Tidy(want, t)
            && (step.ok <==> !UpdateMisses(inst, want, PlanFor(want, existing)))
            && (step.ok ==> Settled(cfg, inst, want, nextMeta, t) && Served(want, t))
            && (step.ok && !PlanFor(want, existing).Clash? ==> Has(t, want))
            && (!step.ok ==> !Has(t, want))
  {
    PlanCases(want, existing);
    match PlanFor(want, existing)
    case Clash =>
      var r :| r in existing && r.rtype != want.rtype;
      assert r in At(w.stores, inst.identity) && DataOf(want, r);
    case Keep(_) =>
      KeepSettles(cfg, env, inst, want, meta, nextMeta, owned, existing, w);
      var t := At(CarryOut(cfg, env, inst, want, meta, owned, PlanFor(want, existing), w).w.stores, inst.identity);
      KeepServes(cfg, env, inst, want, meta, owned, existing, w);
      ShownHas(want, t);
    case Change(_, _) =>
      ChangeSettles(cfg, env, inst, want, meta, nextMeta, owned, existing, w);
      var step := CarryOut(cfg, env, inst, want, meta, owned, PlanFor(want, existing), w);
      if step.ok { ShownHas(want, At(step.w.stores, inst.identity)); }
    case Fresh =>
      FreshSettles(cfg, env, inst, want, meta, nextMeta, owned, w);
  }

  lemma MarkerOnlyAdds(cfg: Config, env: Env, inst: Instance, host: string, meta: Meta, owned: bool, w: World)
    requires Quiet(env)
    ensures var s := At(w.stores, inst.identity);
            var t := At(EnsureMarker(cfg, env, inst, host, meta, owned, w).stores, inst.identity);
            && (forall r :: r in s ==> r in t)
            && (forall r :: r in t && r !in s ==> r.rtype.TXT?)
  {
  }

  lemma KeepSwept(env: Env, inst: Instance, want: Record, existing: Store, w: World)
    requires Quiet(env)
    requires Current(want, existing, At(w.stores, inst.identity))
    requires PlanFor(want, existing).Keep?
    ensures var t := At(PerformAll(w, env, StaleCalls(inst, want.host, StaleOf(want, existing))).stores, inst.identity);
            Shown(want, t) && NoOutdated(want, t)
  {
    PlanCases(want, existing);
    var t := At(PerformAll(w, env, StaleCalls(inst, want.host, StaleOf(want, existing))).stores, inst.identity);
    StaleSwept(env, inst, want, existing, w);
    var e :| e in existing && Exact(want, e);
    assert e in t;
  }

  lemma KeepServes(
    cfg: Config, env: Env, inst: Instance, want: Record, meta: Meta, owned: bool, existing: Store, w: World)
    requires Quiet(env)
    requires Current(want, existing, At(w.stores, inst.identity))
    requires PlanFor(want, existing).Keep?
    ensures var t := At(CarryOut(cfg, env, inst, want, meta, owned, PlanFor(want, existing), w).w.stores, inst.identity);
            Shown(want, t) && NoOutdated(want, t)
  {
    PlanCases(want, existing);
    KeepSwept(env, inst, want, existing, w);
    var w1 := PerformAll(w, env, StaleCalls(inst, want.host, StaleOf(want, existing)));
    MarkerOnlyAdds(cfg, env, inst, want.host, meta, owned, w1);
    ShownStays(want, At(w1.stores, inst.identity),
               At(EnsureMarker(cfg, env, inst, want.host, meta, owned, w1).stores, inst.identity));
  }

  /** What was created or updated with metadata that prints safely ends up marked as our own. */
  lemma CarryMarks(
    cfg: Config, env: Env, inst: Instance, want: Record, meta: Meta, owned: bool, existing: Store, w: World)
    requires Quiet(env) && Own.KeepsOwner(cfg.instanceID, meta) && cfg.tracking
    requires Current(want, existing, At(w.stores, inst.identity))
    requires owned ==> Marked(At(w.stores, inst.identity), want.host, cfg.instanceID)
    ensures var step := CarryOut(cfg, env, inst, want, meta, owned, PlanFor(want, existing), w);
            step.ok && !step.kind.Skipped? ==>
              Marked(At(step.w.stores, inst.identity), want.host, cfg.instanceID)
  {
    PlanCases(want, existing);
    var step := CarryOut(cfg, env, inst, want, meta, owned, PlanFor(want, existing), w);
    if step.ok && !step.kind.Skipped? {
      if PlanFor(want, existing).Change? {
        var prior := PlanFor(want, existing).prior;
        var w1 := PerformAll(w, env, StaleCalls(inst, want.host, StaleOf(want, existing)));
        BeforeUpdate(env, inst, want, existing, w);
        UpdateEffect(env, inst, prior, want, w1);
        var w2 := UpdateRecord(env, inst, prior, want, w1).0;
        AfterUpdate(cfg, inst, want, prior, At(w.stores, inst.identity), At(w1.stores, inst.identity), At(w2.stores, inst.identity));
        MarkerMarks(cfg, env, inst, want, meta, owned, w2);
      } else {
        FreshMarks(cfg, env, inst, want, meta, owned, w);
      }
    }
  }

  lemma FreshResult(cfg: Config, env: Env, inst: Instance, want: Record, meta: Meta, owned: bool, w: World)
    requires Quiet(env)
    ensures var w1 := Perform(w, env, Call(inst.identity, Create(want)));
            && CarryOut(cfg, env, inst, want, meta, owned, Fresh, w).w == EnsureMarker(cfg, env, inst, want.host, meta, owned, w1)
            && forall r :: r in At(w.stores, inst.identity) ==> r in At(w1.stores, inst.identity)
  {
  }

  lemma FreshMarks(cfg: Config, env: Env, inst: Instance, want: Record, meta: Meta, owned: bool, w: World)
    requires Quiet(env) && Own.KeepsOwner(cfg.instanceID, meta) && cfg.tracking
    requires owned ==> Marked(At(w.stores, inst.identity), want.host, cfg.instanceID)
    ensures Marked(At(CarryOut(cfg, env, inst, want, meta, owned, Fresh, w).w.stores, inst.identity), want.host, cfg.instanceID)
  {
    FreshResult(cfg, env, inst, want, meta, owned, w);
    var w1 := Perform(w, env, Call(inst.identity, Create(want)));
    if owned {
      var m :| m in At(w.stores, inst.identity) && IsMarkerOf(m, want.host, cfg.instanceID);
      assert m in At(w1.stores, inst.identity);
    }
    MarkerMarks(cfg, env, inst, want, meta, owned, w1);
  }

  lemma MarkerMarks(cfg: Config, env: Env, inst: Instance, want: Record, meta: Meta, owned: bool, w: World)
    requires Quiet(env) && Own.KeepsOwner(cfg.instanceID, meta) && cfg.tracking
    requires owned ==> Marked(At(w.stores, inst.identity), want.host, cfg.instanceID)
    ensures Marked(At(EnsureMarker(cfg, env, inst, want.host, meta, owned, w).stores, inst.identity), want.host, cfg.instanceID)
  {
    MarkerEnsured(cfg, env, inst, want, meta, meta, owned, w);
    var t := At(EnsureMarker(cfg, env, inst, want.host, meta, owned, w).stores, inst.identity);
    var k := MarkerRecord(inst, want.host, cfg.instanceID, meta);
    if Has(t, k) {
      var r :| r in t && SameKey(r, k);
      Own.MatchesOneInstance(cfg.instanceID, meta, cfg.instanceID);
      assert IsMarkerOf(r, want.host, cfg.instanceID);
    }
  }

  // ---- One more time changes nothing ----

  lemma NonEmptyMember<T>(s: seq<T>)
    requires s != []
    ensures exists x :: x in s
  {
    assert s[0] in s;
  }

  /** Where the store is settled and the snapshot is the store itself, ensuring the host writes nothing new. */
  lemma SettledStays(
    cfg: Config, env: Env, inst: Instance, want: Record, meta: Meta, w: World)
    requires Quiet(env)
    requires Settled(cfg, inst, want, meta, At(w.stores, inst.identity))
    ensures var s := At(w.stores, inst.identity);
            var step := CarryOut(cfg, env, inst, want, meta, Marked(s, want.host, cfg.instanceID),
                              PlanFor(want, DataAt(s, Normalize(want.host))), w);
            step.ok && forall id :: At(step.w.stores, id) == At(w.stores, id)
  {
    hide Normalize;
    hide IsMarkerOf;
    var s := At(w.stores, inst.identity);
    var existing := DataAt(s, Normalize(want.host));
    var owned := Marked(s, want.host, cfg.instanceID);
    PlanCases(want, existing);
    if Clashes(want, s) {
      var r :| r in s && DataOf(want, r) && r.rtype != want.rtype;
      assert r in existing;
    } else if existing == [] {
      assert forall r :: r in s && DataOf(want, r) ==> r in existing;
      assert !Shown(want, s);
      var c := Call(inst.identity, Create(want));
      QuietAt(w, env, c);
      QuietPerform(w, env, c);
      MarkerStays(cfg, env, inst, want, meta, owned, Perform(w, env, c));
    } else {
      assert existing[0] in existing;
      var e :| e in s && DataOf(want, e) && e.rtype == want.rtype && Exact(want, e);
      assert e in existing;
      var stale := StaleOf(want, existing);
      assert forall r :: r !in stale;
      if stale != [] {
        NonEmptyMember(stale);
        assert false;
      }
      assert StaleCalls(inst, want.host, stale) == [];
      if owned || cfg.adopt {
        MarkerStays(cfg, env, inst, want, meta, owned, w);
      }
    }
  }

  lemma MarkerStays(cfg: Config, env: Env, inst: Instance, want: Record, meta: Meta, owned: bool, w: World)
    requires Quiet(env)
    requires cfg.tracking && !owned ==> Has(At(w.stores, inst.identity), MarkerRecord(inst, want.host, cfg.instanceID, meta))
    ensures forall id :: At(EnsureMarker(cfg, env, inst, want.host, meta, owned, w).stores, id) == At(w.stores, id)
  {
  }
}
