/**
 * The provider registry and the manager that retries providers which could not be reached.
 *
 * A method of either is one step.  Whether a factory works and a provider answers are parameters, and
 * so is the time.
 */
module Managing {
  import opened Wrappers
  import opened Strings

  datatype Settings = Settings(initial: nat, max: nat, factor: nat)

  /** A provider that waits for its next attempt. */
  datatype Wait = Wait(attempts: nat, interval: nat, lastAttempt: nat, nextRetryAt: nat)

  /** The names of the ready providers in registry order, and the waiting ones. */
  datatype Fleet = Fleet(ready: seq<string>, pending: map<string, Wait>)

  const EMPTY := Fleet([], map[])

  function FirstWait(s: Settings, now: nat): Wait {
    Wait(1, s.initial, now, now + s.initial)
  }

  function Backoff(s: Settings, w: Wait, now: nat): Wait {
    var next := if w.interval * s.factor > s.max then s.max else w.interval * s.factor;
    Wait(w.attempts + 1, next, now, now + next)
  }

  /** InitializeProvider; `up` tells whether the provider can be made and answers. */
  function Initialized(s: Settings, f: Fleet, name: string, valid: bool, up: bool, now: nat): Fleet {
    if !valid then f
    else if up && name !in f.ready then f.(ready := f.ready + [name])
    else f.(pending := f.pending[name := FirstWait(s, now)])
  }

  /** retryProvider. */
  function Retried(s: Settings, f: Fleet, name: string, up: bool, now: nat): Fleet {
    if name !in f.pending then f
    else if up && name !in f.ready then Fleet(f.ready + [name], f.pending - {name})
    else f.(pending := f.pending[name := Backoff(s, f.pending[name], now)])
  }

  predicate Due(f: Fleet, name: string, now: nat) {
    name in f.pending && f.pending[name].nextRetryAt <= now
  }

  /** Attempts, in order, on the providers in `names`; attempt `i` ends at `clock(i)`. */
  function RetriedAll(s: Settings, f: Fleet, names: seq<string>, up: string -> bool, clock: nat -> nat): Fleet {
    if names == [] then f
    else
      var n := |names| - 1;
      Retried(s, RetriedAll(s, f, names[..n], up, clock), names[n], up(names[n]), clock(n))
  }

  // ---- The registry ----

  class ProviderInstance {
    const name: string

    constructor (name: string)
      ensures this.name == name
    {
      this.name := name;
    }
  }

  class Registry {
    var instances: seq<ProviderInstance>
    var byName: map<string, ProviderInstance>

    constructor ()
      ensures Valid() && Names() == []
    {
      instances, byName := [], map[];
    }

    /** The list and the index hold the same instances, each once. */
    ghost predicate Valid()
      reads this
    {
      Indexed(instances, byName)
    }

    function Names(): seq<string>
      reads this
    {
      NamesOf(instances)
    }

    /** CreateInstance; `made` tells whether the type is known and the factory and the matcher succeed. */
    method CreateInstance(name: string, valid: bool, made: bool) returns (ok: bool)
      requires Valid()
      modifies this
      ensures Valid()
      ensures ok <==> valid && made && name !in old(Names())
      ensures Names() == if ok then old(Names()) + [name] else old(Names())
    {
      DistinctNames(instances, byName);
      if !valid { return false; }
      if name in byName { return false; }
      if !made { return false; }
      var inst := new ProviderInstance(name);
      instances := instances + [inst];
      byName := byName[name := inst];
      assert Names() == old(Names()) + [name];
      return true;
    }

    method Get(name: string) returns (inst: Option<ProviderInstance>)
      requires Valid()
      ensures inst.Some? <==> name in Names()
      ensures inst.Some? ==> inst.value.name == name
    {
      DistinctNames(instances, byName);
      inst := if name in byName then Some(byName[name]) else None;
    }

    /** Remove. */
    method Remove(name: string) returns (found: bool)
      requires Valid()
      modifies this
      ensures Valid()
      ensures found <==> name in old(Names())
      ensures Names() == Except(old(Names()), name)
    {
      DistinctNames(instances, byName);
      if name !in byName {
        ExceptNothing(Names(), name);
        return false;
      }
      var inst := byName[name];
      byName := byName - {name};
      CutOut(inst, old(byName));
      return true;
    }

    /** The loop of Remove over the list. */
    method CutOut(inst: ProviderInstance, ghost before: map<string, ProviderInstance>)
      requires Indexed(instances, before) && inst in instances && byName == before - {inst.name}
      modifies this`instances
      ensures Valid() && Names() == Except(old(Names()), inst.name)
    {
      var i := 0;
      while i < |instances| && instances[i] != inst
        invariant i <= |instances| && instances == old(instances)
        invariant forall j :: 0 <= j < i ==> instances[j] != inst
      {
        i := i + 1;
      }
      DistinctNames(instances, before);
      ExceptOne(NamesOf(instances), i, inst.name);
      Shortened(instances, before, i);
      NamesCut(instances, i);
      instances := instances[..i] + instances[i + 1..];
    }
  }

  function NamesOf(instances: seq<ProviderInstance>): seq<string> {
    seq(|instances|, i requires 0 <= i < |instances| => instances[i].name)
  }

  lemma DistinctNames(instances: seq<ProviderInstance>, byName: map<string, ProviderInstance>)
    requires Indexed(instances, byName)
    ensures forall n :: n in byName <==> n in NamesOf(instances)
    ensures Distinct(NamesOf(instances))
  {
    var names := NamesOf(instances);
    forall n | n in byName ensures n in names {
      var i :| 0 <= i < |instances| && instances[i] == byName[n];
      assert names[i] == n;
    }
    forall i, j | 0 <= i < j < |instances| ensures names[i] != names[j] {
      assert instances[i] != instances[j];
    }
  }

  lemma NamesCut(instances: seq<ProviderInstance>, i: nat)
    requires i < |instances|
    ensures NamesOf(instances[..i] + instances[i + 1..]) == NamesOf(instances)[..i] + NamesOf(instances)[i + 1..]
  {
  }

  ghost predicate Indexed(instances: seq<ProviderInstance>, byName: map<string, ProviderInstance>) {
    && (forall i :: 0 <= i < |instances| ==> instances[i].name in byName && byName[instances[i].name] == instances[i])
    && (forall n :: n in byName ==> byName[n].name == n && byName[n] in instances)
    && (forall i, j :: 0 <= i < j < |instances| ==> instances[i] != instances[j])
  }

  lemma Shortened(instances: seq<ProviderInstance>, byName: map<string, ProviderInstance>, i: nat)
    requires Indexed(instances, byName) && i < |instances|
    ensures Indexed(instances[..i] + instances[i + 1..], byName - {instances[i].name})
  {
  }

  lemma {:induction false} ExceptNothing(names: seq<string>, name: string)
    requires name !in names
    ensures Except(names, name) == names
    decreases |names|
  {
    if names != [] {
      var n := |names| - 1;
      assert names[n] in names && names == names[..n] + [names[n]];
      ExceptNothing(names[..n], name);
    }
  }

  lemma {:induction false} ExceptOne(names: seq<string>, i: nat, name: string)
    requires Distinct(names) && i < |names| && names[i] == name
    ensures Except(names, name) == names[..i] + names[i + 1..]
    decreases |names|
  {
    var n := |names| - 1;
    if i == n {
      ExceptNothing(names[..n], name);
    } else {
      ExceptOne(names[..n], i, name);
      assert names[i + 1..] == names[..n][i + 1..] + [names[n]];
    }
  }

  // ---- The manager ----

  class PendingProvider {
    const name: string
    var attempts: nat
    var interval: nat
    var lastAttempt: nat
    var nextRetryAt: nat

    constructor (name: string, w: Wait)
      ensures this.name == name && View() == w
    {
      this.name := name;
      attempts, interval, lastAttempt, nextRetryAt := w.attempts, w.interval, w.lastAttempt, w.nextRetryAt;
    }

    function View(): Wait
      reads this
    {
      Wait(attempts, interval, lastAttempt, nextRetryAt)
    }

    /** The end of retryProvider when the attempt failed. */
    method Postpone(s: Settings, now: nat)
      modifies this
      ensures View() == Backoff(s, old(View()), now)
    {
      lastAttempt := now;
      attempts := attempts + 1;
      var next := interval * s.factor;
      if next > s.max {
        next := s.max;
      }
      interval := next;
      nextRetryAt := now + next;
    }
  }

  class Manager {
    const registry: Registry
    const settings: Settings
    var pending: map<string, PendingProvider>

    constructor (registry: Registry, settings: Settings)
      requires registry.Valid() && registry.Names() == []
      ensures this.registry == registry && this.settings == settings
      ensures Valid() && View() == EMPTY
    {
      this.registry, this.settings, this.pending := registry, settings, map[];
    }

    ghost predicate Valid()
      reads this, registry
    {
      registry.Valid() && forall n :: n in pending ==> pending[n].name == n
    }

    ghost function View(): Fleet
      reads this, registry, pending.Values
    {
      Fleet(registry.Names(), map n | n in pending :: pending[n].View())
    }

    /** Creating an instance and asking whether it answers; an instance that does not answer is taken out again. */
    method TryCreate(name: string, valid: bool, made: bool, answers: bool) returns (ok: bool)
      requires registry.Valid()
      modifies registry
      ensures registry.Valid()
      ensures ok <==> valid && made && answers && name !in old(registry.Names())
      ensures registry.Names() == if ok then old(registry.Names()) + [name] else old(registry.Names())
    {
      ok := registry.CreateInstance(name, valid, made);
      if ok {
        var inst := registry.Get(name);
        if inst.Some? && !answers {
          var found := registry.Remove(name);
          ExceptLast(old(registry.Names()), name);
          ok := false;
        }
      }
    }

    /** InitializeProvider: only an invalid configuration is an error. */
    method InitializeProvider(name: string, valid: bool, made: bool, answers: bool, now: nat) returns (ok: bool)
      requires Valid()
      modifies this, registry
      ensures Valid() && ok == valid
      ensures View() == Initialized(settings, old(View()), name, valid, made && answers, now)
    {
      hide Indexed;
      hide Distinct;
      if !valid { return false; }
      var up := TryCreate(name, valid, made, answers);
      if up { return true; }
      var p := new PendingProvider(name, FirstWait(settings, now));
      pending := pending[name := p];
      return true;
    }

    /** retryProvider. */
    method RetryProvider(p: PendingProvider, made: bool, answers: bool, now: nat)
      requires Valid() && p.name in pending && pending[p.name] == p
      modifies this, registry, p
      ensures Valid()
      ensures View() == Retried(settings, old(View()), p.name, made && answers, now)
      ensures pending == old(pending) || pending == old(pending) - {p.name}
    {
      hide Indexed;
      hide Distinct;
      var up := TryCreate(p.name, true, made, answers);
      if up {
        pending := pending - {p.name};
        return;
      }
      p.Postpone(settings, now);
    }

    /** The loop of retryPendingProviders that picks the due providers, in whatever order the map yields them. */
    method PickDue(now: nat) returns (due: seq<PendingProvider>)
      requires Valid()
      ensures forall p :: p in due <==> p in pending.Values && p.nextRetryAt <= now
      ensures forall i :: 0 <= i < |due| ==> due[i].name in pending && pending[due[i].name] == due[i]
      ensures forall i, j :: 0 <= i < j < |due| ==> due[i].name != due[j].name
    {
      due := [];
      var left := pending.Keys;
      while left != {}
        invariant left <= pending.Keys
        invariant forall p :: p in due <==> p in pending.Values && p.name !in left && p.nextRetryAt <= now
        invariant forall i :: 0 <= i < |due| ==> due[i].name in pending && pending[due[i].name] == due[i]
        invariant forall i, j :: 0 <= i < j < |due| ==> due[i].name != due[j].name
        decreases |left|
      {
        var name :| name in left;
        left := left - {name};
        assert pending[name] in pending.Values && pending[name].name == name;
        if pending[name].nextRetryAt <= now {
          assert forall p :: p in due ==> p.name != name;
          due := due + [pending[name]];
        }
      }
    }

    /** retryPendingProviders. */
    method RetryPendingProviders(made: string -> bool, answers: string -> bool, now: nat, clock: nat -> nat)
      returns (order: seq<string>)
      requires Valid()
      modifies this, registry, pending.Values
      ensures Valid() && Distinct(order)
      ensures forall n :: n in order <==> Due(old(View()), n, now)
      ensures View() == RetriedAll(settings, old(View()), order, n => made(n) && answers(n), clock)
    {
      var due := PickDue(now);
      order := seq(|due|, i requires 0 <= i < |due| => due[i].name);
      DueNames(order, due, now);
      RetryEach(due, order, made, answers, clock);
    }

    /** The loop of retryPendingProviders over the due providers. */
    method RetryEach(
      due: seq<PendingProvider>, ghost order: seq<string>, made: string -> bool, answers: string -> bool, clock: nat -> nat)
      requires Valid()
      requires |order| == |due| && forall i :: 0 <= i < |due| ==> order[i] == due[i].name
      requires forall i :: 0 <= i < |due| ==> due[i].name in pending && pending[due[i].name] == due[i]
      requires forall i, j :: 0 <= i < j < |due| ==> due[i].name != due[j].name
      modifies this, registry, due
      ensures Valid()
      ensures View() == RetriedAll(settings, old(View()), order, n => made(n) && answers(n), clock)
    {
      hide Retried;
      hide Indexed;
      ghost var up := n => made(n) && answers(n);
      for i := 0 to |due|
        invariant Valid()
        invariant View() == RetriedAll(settings, old(View()), order[..i], up, clock)
        invariant forall j :: i <= j < |due| ==> due[j].name in pending && pending[due[j].name] == due[j]
      {
        assert order[..i + 1][..i] == order[..i];
        var name := due[i].name;
        RetryProvider(due[i], made(name), answers(name), clock(i));
      }
      assert order[..|due|] == order;
    }

    lemma DueNames(order: seq<string>, due: seq<PendingProvider>, now: nat)
      requires Valid()
      requires |order| == |due| && forall i :: 0 <= i < |due| ==> order[i] == due[i].name
      requires forall p :: p in due <==> p in pending.Values && p.nextRetryAt <= now
      ensures forall n :: n in order <==> Due(View(), n, now)
    {
      forall n ensures n in order <==> Due(View(), n, now) {
        if n in order {
          var i :| 0 <= i < |order| && order[i] == n;
          assert due[i] in due;
        }
        if Due(View(), n, now) {
          assert pending[n] in pending.Values && pending[n] in due;
          var i :| 0 <= i < |due| && due[i] == pending[n];
          assert order[i] == n;
        }
      }
    }
  }

  lemma ExceptLast(names: seq<string>, name: string)
    requires name !in names
    ensures Except(names + [name], name) == names
  {
    assert (names + [name])[..|names|] == names;
    ExceptNothing(names, name);
  }

  // ---- Runs ----

  /** A provider is configured, or the retry loop gets to one that was due at `due`. */
  datatype Step =
    | Start(name: string, valid: bool, up: bool, now: nat)
    | Retry(name: string, up: bool, due: nat, now: nat)

  function Take(s: Settings, f: Fleet, step: Step): Fleet {
    match step
    case Start(name, valid, up, now) => Initialized(s, f, name, valid, up, now)
    case Retry(name, up, due, now) => if Due(f, name, due) then Retried(s, f, name, up, now) else f
  }

  function Run(s: Settings, steps: seq<Step>): Fleet {
    if steps == [] then EMPTY else Take(s, Run(s, steps[..|steps| - 1]), steps[|steps| - 1])
  }

  predicate Configures(step: Step, name: string) {
    step.Start? && step.valid && step.name == name
  }

  ghost predicate Configured(steps: seq<Step>, name: string) {
    exists i :: 0 <= i < |steps| && Configures(steps[i], name)
  }

  ghost predicate UniqueNames(steps: seq<Step>) {
    forall i, j :: 0 <= i < j < |steps| && steps[i].Start? && steps[j].Start? ==> steps[i].name != steps[j].name
  }

  /** No provider is both ready and waiting, and none is ready twice. */
  ghost predicate Apart(f: Fleet) {
    Distinct(f.ready) && forall n :: n in f.ready ==> n !in f.pending
  }

  lemma ConfiguredSnoc(steps: seq<Step>, name: string)
    requires steps != []
    ensures var n := |steps| - 1;
            Configured(steps, name) <==> Configured(steps[..n], name) || Configures(steps[n], name)
  {
  }

  /** In every reachable state every configured provider is in exactly one of ready and waiting, and nothing else is. */
  lemma {:induction false} ExactlyOne(s: Settings, steps: seq<Step>)
    requires UniqueNames(steps)
    ensures Apart(Run(s, steps))
    ensures forall name :: Configured(steps, name) <==> name in Run(s, steps).ready || name in Run(s, steps).pending
    decreases |steps|
  {
    if steps != [] {
      var n := |steps| - 1;
      ExactlyOne(s, steps[..n]);
      forall name ensures Configured(steps, name) <==> Configured(steps[..n], name) || Configures(steps[n], name) {
        ConfiguredSnoc(steps, name);
      }
      if steps[n].Start? {
        NotYetConfigured(steps);
      }
    }
  }

  lemma NotYetConfigured(steps: seq<Step>)
    requires UniqueNames(steps) && steps != [] && steps[|steps| - 1].Start?
    ensures !Configured(steps[..|steps| - 1], steps[|steps| - 1].name)
  {
  }

  /** Configuring a provider keeps the two sides apart exactly when its name is new, or it waits and fails again. */
  lemma StartKeepsApartExactlyWhen(s: Settings, f: Fleet, name: string, valid: bool, up: bool, now: nat)
    requires Apart(f)
    ensures Apart(Initialized(s, f, name, valid, up, now))
       <==> !valid || (name !in f.ready && (name !in f.pending || !up))
  {
  }

  // ---- Backoff ----

  function Power(b: nat, k: nat): nat {
    if k == 0 then 1 else Power(b, k - 1) * b
  }

  function Min(a: nat, b: nat): nat {
    if a <= b then a else b
  }

  /** The wait after `k` failed retries. */
  function IntervalAfter(s: Settings, k: nat): nat {
    if k == 0 then s.initial else Min(s.initial * Power(s.factor, k), s.max)
  }

  lemma Grows(a: nat, f: nat)
    requires f >= 1
    ensures a * f >= a
  {
    assert a * f == a + a * (f - 1);
  }

  lemma Regroup(a: nat, b: nat, c: nat)
    ensures a * (b * c) == (a * b) * c
  {
  }

  lemma NextInterval(s: Settings, k: nat)
    requires s.factor >= 1
    ensures IntervalAfter(s, k + 1) == Min(IntervalAfter(s, k) * s.factor, s.max)
  {
    var p := Power(s.factor, k);
    var wait := s.initial * p;
    assert Power(s.factor, k + 1) == p * s.factor;
    Regroup(s.initial, p, s.factor);
    if k == 0 {
      assert wait == s.initial;
    } else if wait > s.max {
      Grows(wait, s.factor);
      Grows(s.max, s.factor);
    }
  }

  ghost predicate Paced(s: Settings, w: Wait) {
    w.attempts >= 1 && w.interval == IntervalAfter(s, w.attempts - 1) && w.nextRetryAt == w.lastAttempt + w.interval
  }

  /** After k failed retries a provider waits min(initial * factor^k, max) from its last attempt. */
  lemma {:induction false} BackoffExactly(s: Settings, steps: seq<Step>, name: string)
    requires s.factor >= 1
    ensures var f := Run(s, steps); name in f.pending ==> Paced(s, f.pending[name])
    decreases |steps|
  {
    if steps != [] {
      var n := |steps| - 1;
      BackoffExactly(s, steps[..n], name);
      var f := Run(s, steps[..n]);
      if name in f.pending {
        NextInterval(s, f.pending[name].attempts - 1);
      }
    }
  }

  /** In this state no provider waits longer than the cap. */
  ghost predicate WaitsCapped(s: Settings, f: Fleet) {
    forall name :: name in f.pending ==> f.pending[name].interval <= s.max
  }

  /** The first wait is not capped: in no run does a provider wait longer than the cap exactly when the initial wait is within it. */
  lemma CappedExactlyWhen(s: Settings)
    requires s.factor >= 1
    ensures (forall steps: seq<Step> :: WaitsCapped(s, Run(s, steps))) <==> s.initial <= s.max
  {
    if s.initial <= s.max {
      forall steps: seq<Step>, name: string | name in Run(s, steps).pending ensures Run(s, steps).pending[name].interval <= s.max {
        BackoffExactly(s, steps, name);
      }
    } else {
      var start := Start("", true, false, 0);
      RunSnoc(s, [], start);
      assert [] + [start] == [start];
      assert "" in Run(s, [start]).pending;
      assert !WaitsCapped(s, Run(s, [start]));
    }
  }

  /** Whenever the loop attempts a provider, its whole wait since the last attempt has passed. */
  lemma NoAttemptTooEarly(s: Settings, steps: seq<Step>, name: string, due: nat)
    requires s.factor >= 1 && Due(Run(s, steps), name, due)
    ensures var w := Run(s, steps).pending[name];
            w.attempts >= 1 && due >= w.lastAttempt + IntervalAfter(s, w.attempts - 1)
  {
    BackoffExactly(s, steps, name);
  }

  /** The step attempts the provider, which does not answer. */
  predicate FailsAt(f: Fleet, step: Step, name: string) {
    step.name == name && !step.up && match step
                                     case Start(_, valid, _, _) => valid
                                     case Retry(_, _, due, _) => Due(f, name, due)
  }

  /** After a failed attempt, the first or a later one, the loop attempts the provider again exactly from its next wait on. */
  lemma NextAttemptExactly(s: Settings, steps: seq<Step>, step: Step, name: string, later: nat)
    requires s.factor >= 1 && FailsAt(Run(s, steps), step, name)
    ensures var failed := if step.Start? then 0 else Run(s, steps).pending[name].attempts;
            var f := Run(s, steps + [step]);
            && name in f.pending && f.pending[name].attempts == failed + 1
            && (Due(f, name, later) <==> later >= step.now + IntervalAfter(s, failed))
  {
    RunSnoc(s, steps, step);
    BackoffExactly(s, steps, name);
    BackoffExactly(s, steps + [step], name);
  }

  // ---- Priority ----

  ghost predicate Before(conf: seq<string>, a: string, b: string) {
    exists i, j :: 0 <= i < j < |conf| && conf[i] == a && conf[j] == b
  }

  /** The ready providers stand in the order in which they were configured. */
  ghost predicate InOrder(conf: seq<string>, ready: seq<string>) {
    forall i, j :: 0 <= i < j < |ready| ==> Before(conf, ready[i], ready[j])
  }

  /**
   * A provider that recovers goes to the end of the registry, so the configured priority survives
   * exactly when everything ready was configured before it.
   */
  lemma RecoveryKeepsOrderExactlyWhen(s: Settings, f: Fleet, conf: seq<string>, name: string, now: nat)
    requires Apart(f) && name in f.pending && InOrder(conf, f.ready)
    ensures InOrder(conf, Retried(s, f, name, true, now).ready) <==> forall r :: r in f.ready ==> Before(conf, r, name)
  {
    var n := |f.ready|;
    var ready := Retried(s, f, name, true, now).ready;
    assert ready == f.ready + [name];
    if InOrder(conf, ready) {
      forall r | r in f.ready ensures Before(conf, r, name) {
        var i :| 0 <= i < n && f.ready[i] == r;
        assert ready[i] == r && ready[n] == name;
      }
    }
  }

  /** The names in the order in which they were configured. */
  function Configuration(steps: seq<Step>): seq<string> {
    if steps == [] then []
    else
      var n := |steps| - 1;
      Configuration(steps[..n]) + (if steps[n].Start? && steps[n].valid then [steps[n].name] else [])
  }

  lemma {:induction false} ConfigurationHolds(steps: seq<Step>, name: string)
    ensures name in Configuration(steps) <==> Configured(steps, name)
    decreases |steps|
  {
    if steps != [] {
      ConfigurationHolds(steps[..|steps| - 1], name);
      ConfiguredSnoc(steps, name);
    }
  }

  lemma BeforeSnoc(conf: seq<string>, x: string, a: string, b: string)
    requires x !in conf
    ensures Before(conf + [x], a, b) <==> Before(conf, a, b) || (a in conf && b == x)
  {
    var longer := conf + [x];
    if Before(conf, a, b) {
      var i, j :| 0 <= i < j < |conf| && conf[i] == a && conf[j] == b;
      assert longer[i] == a && longer[j] == b;
    }
    if a in conf && b == x {
      var i :| 0 <= i < |conf| && conf[i] == a;
      assert longer[i] == a && longer[|conf|] == b;
    }
  }

  /** A new name at the end of the configuration, and perhaps of the registry, keeps the order as it was. */
  lemma NewestKeepsOrder(conf: seq<string>, ready: seq<string>, x: string)
    requires x !in conf && forall r :: r in ready ==> r in conf
    ensures InOrder(conf + [x], ready) <==> InOrder(conf, ready)
    ensures InOrder(conf + [x], ready + [x]) <==> InOrder(conf, ready)
  {
    var longer := ready + [x];
    forall a, b ensures Before(conf + [x], a, b) <==> Before(conf, a, b) || (a in conf && b == x) {
      BeforeSnoc(conf, x, a, b);
    }
    assert forall i :: 0 <= i < |ready| ==> longer[i] == ready[i] && ready[i] in ready;
  }

  /** Step `j` brings a waiting provider back. */
  predicate Recovers(s: Settings, steps: seq<Step>, j: nat)
    requires j < |steps|
  {
    steps[j].Retry? && steps[j].up && Due(Run(s, steps[..j]), steps[j].name, steps[j].due)
  }

  /** If step `j` is a recovery, everything that was ready then had been configured earlier. */
  ghost predicate RecoversInTurn(s: Settings, steps: seq<Step>, j: nat)
    requires j < |steps|
  {
    Recovers(s, steps, j) ==>
      forall r :: r in Run(s, steps[..j]).ready ==> Before(Configuration(steps[..j]), r, steps[j].name)
  }

  lemma ShrunkOrder(conf: seq<string>, ready: seq<string>, x: string)
    requires InOrder(conf, ready + [x])
    ensures InOrder(conf, ready)
  {
    var longer := ready + [x];
    assert forall i :: 0 <= i < |ready| ==> longer[i] == ready[i];
  }

  /** The last step keeps the order exactly when it is not a recovery out of turn. */
  lemma LastStepKeepsOrder(s: Settings, steps: seq<Step>)
    requires steps != [] && UniqueNames(steps)
    ensures var n := |steps| - 1;
            InOrder(Configuration(steps), Run(s, steps).ready)
            <==> InOrder(Configuration(steps[..n]), Run(s, steps[..n]).ready) && RecoversInTurn(s, steps, n)
  {
    hide InOrder;
    hide Before;
    var n := |steps| - 1;
    var f, conf := Run(s, steps[..n]), Configuration(steps[..n]);
    ExactlyOne(s, steps[..n]);
    forall name ensures name in conf <==> Configured(steps[..n], name) { ConfigurationHolds(steps[..n], name); }
    match steps[n]
    case Start(name, valid, up, now) =>
      NotYetConfigured(steps);
      NewestKeepsOrder(conf, f.ready, name);
      assert conf + [] == conf;
      assert !Recovers(s, steps, n);
    case Retry(name, up, due, now) =>
      assert conf + [] == conf;
      if Recovers(s, steps, n) {
        if InOrder(conf, f.ready) { RecoveryKeepsOrderExactlyWhen(s, f, conf, name, now); }
        if InOrder(conf, f.ready + [name]) { ShrunkOrder(conf, f.ready, name); }
      }
  }

  /**
   * Priority over a run.  The registry stands in the configured order exactly when, at each recovery,
   * nothing configured later was ready already.
   */
  lemma {:induction false} PriorityKeptExactlyWhen(s: Settings, steps: seq<Step>)
    requires UniqueNames(steps)
    ensures InOrder(Configuration(steps), Run(s, steps).ready)
       <==> forall j :: 0 <= j < |steps| ==> RecoversInTurn(s, steps, j)
    decreases |steps|
  {
    hide Run;
    hide Configuration;
    hide InOrder;
    if steps == [] {
      NothingInOrder(s);
    } else {
      var n := |steps| - 1;
      PriorityKeptExactlyWhen(s, steps[..n]);
      LastStepKeepsOrder(s, steps);
      forall j | 0 <= j < n ensures RecoversInTurn(s, steps, j) <==> RecoversInTurn(s, steps[..n], j) {
        assert steps[..n][..j] == steps[..j] && steps[..n][j] == steps[j];
      }
    }
  }

  lemma NothingInOrder(s: Settings)
    ensures InOrder(Configuration([]), Run(s, []).ready)
  {
  }

  /** A run that turns the priority of two providers round: the first one answers only at its first retry. */
  lemma LateRecoveryReorders(s: Settings)
    ensures var steps := [Start("first", true, false, 0), Start("second", true, true, 0),
                          Retry("first", true, s.initial, s.initial)];
            Run(s, steps).ready == ["second", "first"] && Run(s, steps).pending == map[]
  {
    var a, b, c := Start("first", true, false, 0), Start("second", true, true, 0), Retry("first", true, s.initial, s.initial);
    RunSnoc(s, [], a);
    RunSnoc(s, [a], b);
    RunSnoc(s, [a, b], c);
    assert [] + [a] == [a] && [a] + [b] == [a, b] && [a, b] + [c] == [a, b, c];
    assert Run(s, [a]) == Fleet([], map["first" := FirstWait(s, 0)]);
    assert Run(s, [a, b]) == Fleet(["second"], map["first" := FirstWait(s, 0)]);
  }

  lemma RunSnoc(s: Settings, steps: seq<Step>, step: Step)
    ensures Run(s, steps + [step]) == Take(s, Run(s, steps), step)
  {
  }
}
