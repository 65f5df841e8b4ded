/** The cycle theorems for the host names the reconciler itself extracts. */
module Discovery {
  import opened Wrappers
  import opened Names
  import opened Backend
  import opened Model
  import opened Isolation
  import opened Settling
  import opened Convergence
  import opened Fixpoint
  import opened Reconciling
  import opened Requests

  /** What extraction yields is what the cycle theorems suppose: valid names under their canonical form. */
  lemma FoundIsWell(hs: seq<Hostname>)
    ensures WellFound(FirstWins(hs))
  {
    hide ValidName;
    hide ProperName;
    hide FirstWins;
    hide Normalize;
    forall k | k in FirstWins(hs) ensures ValidName(FirstWins(hs)[k]) && k == Normalize(FirstWins(hs)[k].name) {
      FirstWinsExactly(hs, k);
      ValidIsProper(FirstWins(hs)[k]);
    }
  }

  /** Where the discovered host of a first naming is found. */
  lemma FirstIsFound(hs: seq<Hostname>, k: string, i: nat)
    requires FirstNaming(hs, k, i)
    ensures k in FirstWins(hs) && FirstWins(hs)[k] == hs[i]
  {
    hide NamesHost;
    FirstWinsExactly(hs, k);
    if k in FirstWins(hs) {
      var j :| FirstNaming(hs, k, j) && FirstWins(hs)[k] == hs[j];
      assert !(i < j) && !(j < i);
    }
  }

  /**
   * Convergence of a Reconcile call.  Of all that the workloads and files list, the first valid entry of
   * a name is what the stores end up with: `orders` and `after` are what the method ensures.
   */
  lemma ReconcileConverges(
    cfg: Config, env: Env, reg: Registry, workloads: seq<seq<Hostname>>, files: seq<Hostname>, orders: Orders,
    proc: Proc, w: World, after: Pass, i: nat, inst: Instance)
    requires var found := FirstWins(Flatten(workloads) + files);
             OrdersFit(orders, proc, found) && after == Cycle(cfg, env, reg, found, orders, proc, w)
    requires Quiet(env) && cfg.enabled && !cfg.dryRun && ValidRegistry(reg)
    requires CanonicalNames(proc.known) && PlainRec(cfg.instanceID, proc.rec)
    requires Survivable(reg, FirstWins(Flatten(workloads) + files), w.stores)
    requires var hs := Flatten(workloads) + files;
             && i < |hs| && FirstNaming(hs, Normalize(hs[i].name), i)
             && inst in Writers(reg, hs[i]) && SpreadOut(reg, hs[i])
             && !Blocked(hs[i], inst, At(w.stores, inst.identity))
    ensures after.alive
    ensures var h := (Flatten(workloads) + files)[i];
            (exists r :: r in At(after.w.stores, inst.identity) && AsksFor(h, inst, r))
            <==> !Misses(h, inst, At(w.stores, inst.identity))
  {
    hide Cycle;
    hide FirstWins;
    hide Writers;
    hide FirstNaming;
    hide WellFound;
    hide Misses;
    hide Blocked;
    hide Survivable;
    hide AsksFor;
    var hs := Flatten(workloads) + files;
    var k := Normalize(hs[i].name);
    FoundIsWell(hs);
    QuietOutlives(cfg, env, reg, FirstWins(hs), orders, proc, w);
    FirstIsFound(hs, k, i);
    Converges(cfg, env, reg, FirstWins(hs), orders, proc, w, k, inst);
  }
}
