/** Everything a fresh process recovers: the names, the instances it will clean them at, and their metadata. */
module Recovery {
  import opened Wrappers
  import opened Names
  import opened Backend
  import opened Model
  import opened Settling
  import opened Isolation
  import opened Convergence
  import opened Fixpoint
  import opened Restart
  import Own = Ownership

  /** A TXT record named by the literal prefix before a host of this canonical name, with a value of this ID. */
  ghost predicate MarksName(id: string, r: Record, n: string) {
    && r.rtype == TXT
    && (exists host :: host != "" && r.host == "_dnsweaver." + host && Normalize(host) == n)
    && Own.MatchesOwnership(r.target, id)
  }

  ghost predicate Shows(s: Store, id: string, n: string, meta: Model.Meta) {
    exists r :: r in s && MarksName(id, r, n) && Own.ParseValue(r.target).meta == meta
  }

  lemma MarksExactly(id: string, r: Record, n: string)
    ensures MarksName(id, r, n) <==> Recoverable(r, id) && Normalize(RecoveredOf(r).host) == n
  {
    hide Normalize;
    hide Own.MatchesOwnership;
    MarkerRoundTrip("x", r.host);
    assert forall host :: Marker(host) == "_dnsweaver." + host;
    forall host | host != "" && r.host == Marker(host) ensures MarkedHost(r.host) == host { MarkerRoundTrip(host, r.host); }
  }

  ghost predicate Lists(hosts: seq<Recovered>, n: string, meta: Model.Meta) {
    exists x :: x in hosts && Normalize(x.host) == n && x.meta == meta
  }

  lemma RecoverFromLists(s: Store, id: string, n: string, meta: Model.Meta)
    ensures Lists(RecoverFrom(s, id), n, meta) <==> Shows(s, id, n, meta)
  {
    hide MarksName;
    hide Recoverable;
    hide Normalize;
    forall r ensures MarksName(id, r, n) <==> Recoverable(r, id) && Normalize(RecoveredOf(r).host) == n { MarksExactly(id, r, n); }
    forall r | r in s && MarksName(id, r, n) ensures RecoveredOf(r) in RecoverFrom(s, id) { }
  }

  predicate Assigned(mapping: map<string, seq<string>>, n: string, provider: string) {
    n in mapping && provider in mapping[n]
  }

  /** What one provider's list adds for one name. */
  ghost predicate Adds(before: Proc, after: Proc, provider: string, hosts: seq<Recovered>, n: string) {
    && (n in after.known <==> n in before.known || exists meta :: Lists(hosts, n, meta))
    && (n in after.mapping <==> n in before.mapping || exists meta :: Lists(hosts, n, meta))
    && (forall p :: Assigned(after.mapping, n, p) <==>
          Assigned(before.mapping, n, p) || (p == provider && exists meta :: Lists(hosts, n, meta)))
    && (n in after.rec <==> n in before.rec || exists meta :: meta != map[] && Lists(hosts, n, meta))
    && (n in after.rec ==>
          || (n in before.rec && after.rec[n] == before.rec[n])
          || (after.rec[n] != map[] && Lists(hosts, n, after.rec[n])))
  }

  lemma {:induction false} LearnAdds(proc: Proc, provider: string, hosts: seq<Recovered>, n: string)
    ensures Adds(proc, Learn(proc, provider, hosts), provider, hosts, n)
    decreases |hosts|
  {
    hide Learn;
    if hosts == [] {
      LearnNone(proc, provider);
    } else {
      var k := |hosts| - 1;
      LearnAdds(proc, provider, hosts[..k], n);
      LearnOne(proc, provider, hosts);
      LastListed(hosts, n);
      OneMore(proc, Learn(proc, provider, hosts[..k]), Learn(proc, provider, hosts), provider, hosts, n);
    }
  }

  lemma LearnOne(proc: Proc, provider: string, hosts: seq<Recovered>)
    requires hosts != []
    ensures var before, q, x := Learn(proc, provider, hosts[..|hosts| - 1]), Learn(proc, provider, hosts), hosts[|hosts| - 1];
            var host := Normalize(x.host);
            && q.known == before.known + {host}
            && q.mapping == Remember(before.mapping, host, provider)
            && q.rec == if x.meta != map[] then before.rec[host := x.meta] else before.rec
  {
    hide Normalize;
    hide Remember;
  }

  lemma LastListed(hosts: seq<Recovered>, n: string)
    requires hosts != []
    ensures var k := |hosts| - 1;
            forall meta :: Lists(hosts, n, meta) <==>
              Lists(hosts[..k], n, meta) || (Normalize(hosts[k].host) == n && hosts[k].meta == meta)
  {
    hide Normalize;
    var k := |hosts| - 1;
    assert forall x :: x in hosts <==> x in hosts[..k] || x == hosts[k];
  }

  lemma OneMore(proc: Proc, before: Proc, q: Proc, provider: string, hosts: seq<Recovered>, n: string)
    requires hosts != [] && Adds(proc, before, provider, hosts[..|hosts| - 1], n)
    requires var x := hosts[|hosts| - 1];
             var host := Normalize(x.host);
             && q.known == before.known + {host}
             && q.mapping == Remember(before.mapping, host, provider)
             && q.rec == if x.meta != map[] then before.rec[host := x.meta] else before.rec
    requires var k := |hosts| - 1;
             forall meta :: Lists(hosts, n, meta) <==>
               Lists(hosts[..k], n, meta) || (Normalize(hosts[k].host) == n && hosts[k].meta == meta)
    ensures Adds(proc, q, provider, hosts, n)
  {
    hide Normalize;
    hide Lists;
    var x := hosts[|hosts| - 1];
    if Normalize(x.host) == n { assert Lists(hosts, n, x.meta); }
    forall p ensures Assigned(q.mapping, n, p) <==> Assigned(before.mapping, n, p) || (p == provider && Normalize(x.host) == n) {
      RememberAssigns(before.mapping, Normalize(x.host), provider, n, p);
    }
  }

  lemma RememberAssigns(m: map<string, seq<string>>, host: string, provider: string, n: string, p: string)
    ensures Assigned(Remember(m, host, provider), n, p) <==> Assigned(m, n, p) || (p == provider && host == n)
  {
  }

  // ---- Over all providers ----

  ghost predicate Told(id: string, reg: Registry, stores: map<Identity, Store>, n: string, meta: Model.Meta) {
    exists inst :: inst in reg && Shows(At(stores, inst.identity), id, n, meta)
  }

  ghost predicate ToldBy(id: string, reg: Registry, stores: map<Identity, Store>, n: string, provider: string) {
    exists inst, meta :: inst in reg && inst.name == provider && Shows(At(stores, inst.identity), id, n, meta)
  }

  /** What the markers in the stores of these instances add for one name. */
  ghost predicate Recovers(before: Proc, after: Proc, id: string, reg: Registry, stores: map<Identity, Store>, n: string) {
    && (n in after.known <==> n in before.known || exists meta :: Told(id, reg, stores, n, meta))
    && (n in after.mapping <==> n in before.mapping || exists meta :: Told(id, reg, stores, n, meta))
    && (forall p :: Assigned(after.mapping, n, p) <==> Assigned(before.mapping, n, p) || ToldBy(id, reg, stores, n, p))
    && (n in after.rec <==> n in before.rec || exists meta :: meta != map[] && Told(id, reg, stores, n, meta))
    && (n in after.rec ==>
          || (n in before.rec && after.rec[n] == before.rec[n])
          || (after.rec[n] != map[] && Told(id, reg, stores, n, after.rec[n])))
  }

  lemma {:induction false} RecoverAllRecovers(cfg: Config, env: Env, reg: Registry, proc: Proc, w: World, n: string)
    requires Quiet(env)
    ensures SameStores(RecoverAll(cfg, env, reg, proc, w).w.stores, w.stores)
    ensures Recovers(proc, RecoverAll(cfg, env, reg, proc, w).proc, cfg.instanceID, reg, w.stores, n)
    decreases |reg|
  {
    hide Learn;
    hide RecoverFrom;
    hide Recovers;
    hide Shows;
    if reg == [] {
      NothingTold(cfg.instanceID, proc, w.stores, n);
    } else {
      var k := |reg| - 1;
      var id := cfg.instanceID;
      RecoverAllRecovers(cfg, env, reg[..k], proc, w, n);
      var p := RecoverAll(cfg, env, reg[..k], proc, w);
      QuietListed(env, reg[k], p.w);
      var hosts := RecoverFrom(At(w.stores, reg[k].identity), id);
      forall meta ensures Lists(hosts, n, meta) <==> Shows(At(w.stores, reg[k].identity), id, n, meta) {
        RecoverFromLists(At(w.stores, reg[k].identity), id, n, meta);
      }
      LearnAdds(p.proc, reg[k].name, hosts, n);
      OneMoreProvider(id, reg, w.stores, proc, p.proc, Learn(p.proc, reg[k].name, hosts), hosts, n);
    }
  }

  lemma NothingTold(id: string, proc: Proc, stores: map<Identity, Store>, n: string)
    ensures Recovers(proc, proc, id, [], stores, n)
  {
  }

  lemma OneMoreProvider(
    id: string, reg: Registry, stores: map<Identity, Store>, proc: Proc, before: Proc, q: Proc, hosts: seq<Recovered>, n: string)
    requires reg != [] && Recovers(proc, before, id, reg[..|reg| - 1], stores, n)
    requires Adds(before, q, reg[|reg| - 1].name, hosts, n)
    requires forall meta :: Lists(hosts, n, meta) <==> Shows(At(stores, reg[|reg| - 1].identity), id, n, meta)
    ensures Recovers(proc, q, id, reg, stores, n)
  {
    hide Shows;
    hide Lists;
    hide Assigned;
    hide Told;
    hide ToldBy;
    var front, s := reg[..|reg| - 1], At(stores, reg[|reg| - 1].identity);
    if meta :| Lists(hosts, n, meta) { assert Shows(s, id, n, meta); }
    if meta :| Shows(s, id, n, meta) { assert Lists(hosts, n, meta); }
    forall meta ensures Told(id, reg, stores, n, meta) <==> Told(id, front, stores, n, meta) || Lists(hosts, n, meta) {
      ToldMore(id, reg, stores, n, meta);
    }
    forall p ensures ToldBy(id, reg, stores, n, p) <==>
                 ToldBy(id, front, stores, n, p) || (p == reg[|reg| - 1].name && exists meta :: Lists(hosts, n, meta)) {
      ToldByMore(id, reg, stores, n, p);
    }
  }

  lemma ToldMore(id: string, reg: Registry, stores: map<Identity, Store>, n: string, meta: Model.Meta)
    requires reg != []
    ensures var k := |reg| - 1;
            Told(id, reg, stores, n, meta) <==>
              Told(id, reg[..k], stores, n, meta) || Shows(At(stores, reg[k].identity), id, n, meta)
  {
    hide Shows;
    assert forall x :: x in reg <==> x in reg[..|reg| - 1] || x == reg[|reg| - 1];
  }

  lemma ToldByMore(id: string, reg: Registry, stores: map<Identity, Store>, n: string, p: string)
    requires reg != []
    ensures var k := |reg| - 1;
            ToldBy(id, reg, stores, n, p) <==>
              || ToldBy(id, reg[..k], stores, n, p)
              || (p == reg[k].name && exists meta :: Shows(At(stores, reg[k].identity), id, n, meta))
  {
    hide Shows;
    assert forall x :: x in reg <==> x in reg[..|reg| - 1] || x == reg[|reg| - 1];
  }

  /**
   * Recovery without failures, name by name: with cleanup and tracking on, a fresh process knows the name, has
   * it assigned to a provider, and has metadata for it, exactly when a store, that provider's store, and a
   * marker with metadata say so; the metadata are those of one such marker.  Otherwise it recovers nothing.
   */
  lemma RecoversFully(cfg: Config, env: Env, reg: Registry, w: World, n: string)
    requires Quiet(env)
    ensures var q, id := Recover(cfg, env, reg, NEWBORN, w).proc, cfg.instanceID;
            && SameStores(Recover(cfg, env, reg, NEWBORN, w).w.stores, w.stores)
            && (n in q.known <==> cfg.cleanup && cfg.tracking && exists meta :: Told(id, reg, w.stores, n, meta))
            && (n in q.mapping <==> n in q.known)
            && (forall p :: Assigned(q.mapping, n, p) <==> cfg.cleanup && cfg.tracking && ToldBy(id, reg, w.stores, n, p))
            && (n in q.rec <==> cfg.cleanup && cfg.tracking && exists meta :: meta != map[] && Told(id, reg, w.stores, n, meta))
            && (n in q.rec ==> q.rec[n] != map[] && Told(id, reg, w.stores, n, q.rec[n]))
  {
    hide Told;
    hide ToldBy;
    hide RecoverAll;
    if cfg.cleanup && cfg.tracking { RecoverAllRecovers(cfg, env, reg, NEWBORN, w, n); }
  }
}
