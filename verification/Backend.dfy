/**
 * DNS records, the stores that hold them, and calls to the providers in front of those stores.
 *
 * A `World` is every store together with the log of calls one process has made.  An `Env` decides,
 * call by call, how the provider behaves and what other writers do to the stores just before.
 */
module Backend {
  import opened Wrappers
  import opened Names

  datatype RecordType = A | AAAA | CNAME | TXT | SRV | HTTPS | Other(name: string)

  type Uint16 = n: nat | n < 0x10000

  datatype SrvData = SrvData(priority: Uint16, weight: Uint16, port: Uint16)

  datatype Record = Record(host: string, rtype: RecordType, target: string, ttl: int, srv: Option<SrvData>)

  /** The types that carry DNS data, as opposed to ownership markers and types the program ignores. */
  predicate IsData(t: RecordType) {
    t.A? || t.AAAA? || t.CNAME? || t.SRV? || t.HTTPS?
  }

  /** What a provider compares when it looks for a record: everything but the TTL. */
  predicate SameKey(a: Record, b: Record) {
    && Normalize(a.host) == Normalize(b.host)
    && a.rtype == b.rtype
    && a.target == b.target
    && (a.rtype.SRV? ==> a.srv == b.srv)
  }

  type Store = seq<Record>

  predicate Has(s: Store, k: Record) {
    exists r :: r in s && SameKey(r, k)
  }

  function Without(s: Store, k: Record): (t: Store)
    ensures forall r :: r in t <==> r in s && !SameKey(r, k)
  {
    if s == [] then []
    else
      assert s == [s[0]] + s[1..];
      (if SameKey(s[0], k) then [] else [s[0]]) + Without(s[1..], k)
  }

  /** Every record with the key of `prior` becomes `new`, in place. */
  function Replace(s: Store, prior: Record, next: Record): (t: Store)
    ensures forall r :: r in t <==> (r in s && !SameKey(r, prior)) || (r == next && Has(s, prior))
  {
    if s == [] then []
    else
      assert s == [s[0]] + s[1..];
      [if SameKey(s[0], prior) then next else s[0]] + Replace(s[1..], prior, next)
  }

  lemma {:induction false} WithoutAbsent(s: Store, k: Record)
    requires !Has(s, k)
    ensures Without(s, k) == s
  {
    if s != [] {
      assert s == [s[0]] + s[1..];
      assert !Has(s[1..], k);
      WithoutAbsent(s[1..], k);
    }
  }

  lemma {:induction false} ReplaceAbsent(s: Store, prior: Record, next: Record)
    requires !Has(s, prior)
    ensures Replace(s, prior, next) == s
  {
    if s != [] {
      assert s == [s[0]] + s[1..];
      assert !Has(s[1..], prior);
      ReplaceAbsent(s[1..], prior, next);
    }
  }

  // ---- Calls ----

  datatype Identity = Identity(kind: string, endpoint: string, zone: string)

  datatype Op =
    | List
    | Create(record: Record)
    | Delete(record: Record)
    | Update(existing: Record, desired: Record)

  datatype Call = Call(id: Identity, op: Op)

  /** How a call goes: it works, it is refused, its reply is lost after it worked, or types clash. */
  datatype Outcome = Succeed | Refuse | LoseReply | ClashTypes

  datatype Reply = Done | AlreadyThere | TypeClash | Missing | Failed

  function Effect(s: Store, op: Op): Store {
    match op
    case List => s
    case Create(r) => if Has(s, r) then s else s + [r]
    case Delete(r) => Without(s, r)
    case Update(prior, next) => Replace(s, prior, next)
  }

  function ReplyTo(s: Store, op: Op, outcome: Outcome): Reply {
    match outcome
    case Refuse => Failed
    case LoseReply => Failed
    case ClashTypes => if op.Create? then TypeClash else Failed
    case Succeed =>
      match op
      case List => Done
      case Create(r) => if Has(s, r) then AlreadyThere else Done
      case Delete(r) => if Has(s, r) then Done else Missing
      case Update(prior, _) => if Has(s, prior) then Done else Missing
  }

  predicate Applied(outcome: Outcome) {
    outcome.Succeed? || outcome.LoseReply?
  }

  // ---- Worlds ----

  datatype Event = Event(call: Call, reply: Reply)

  datatype World = World(stores: map<Identity, Store>, log: seq<Event>)

  datatype Env = Env(outcome: nat -> Outcome, others: nat -> seq<Call>)

  function At(stores: map<Identity, Store>, id: Identity): Store {
    if id in stores then stores[id] else []
  }

  function Write(stores: map<Identity, Store>, c: Call): map<Identity, Store> {
    stores[c.id := Effect(At(stores, c.id), c.op)]
  }

  function Interfere(stores: map<Identity, Store>, calls: seq<Call>): map<Identity, Store>
    decreases |calls|
  {
    if calls == [] then stores else Interfere(Write(stores, calls[0]), calls[1..])
  }

  function Perform(w: World, env: Env, c: Call): World {
    var n := |w.log|;
    var before := Interfere(w.stores, env.others(n));
    var event := Event(c, ReplyTo(At(before, c.id), c.op, env.outcome(n)));
    World(if Applied(env.outcome(n)) then Write(before, c) else before, w.log + [event])
  }

  function LastReply(w: World): Reply {
    if w.log == [] then Failed else w.log[|w.log| - 1].reply
  }

  function PerformAll(w: World, env: Env, calls: seq<Call>): World
    decreases |calls|
  {
    if calls == [] then w
    else Perform(PerformAll(w, env, calls[..|calls| - 1]), env, calls[|calls| - 1])
  }

  lemma PerformAllOne(w: World, env: Env, c: Call)
    ensures PerformAll(w, env, [c]) == Perform(w, env, c)
  {
  }

  lemma {:induction false} PerformAllAppend(w: World, env: Env, a: seq<Call>, b: seq<Call>)
    ensures PerformAll(w, env, a + b) == PerformAll(PerformAll(w, env, a), env, b)
    decreases |b|
  {
    if b == [] {
      assert a + b == a;
    } else {
      var init := b[..|b| - 1];
      assert (a + b)[..|a + b| - 1] == a + init;
      PerformAllAppend(w, env, a, init);
    }
  }

  lemma PerformAllSnoc(w: World, env: Env, a: seq<Call>, c: Call)
    ensures PerformAll(w, env, a + [c]) == Perform(PerformAll(w, env, a), env, c)
  {
  }

  /** The log records exactly the calls performed, in order, after what it held before. */
  lemma {:induction false} PerformAllLog(w: World, env: Env, calls: seq<Call>)
    ensures var l := PerformAll(w, env, calls).log;
            && |l| == |w.log| + |calls|
            && l[..|w.log|] == w.log
            && forall i :: 0 <= i < |calls| ==> l[|w.log| + i].call == calls[i]
    decreases |calls|
  {
    if calls != [] {
      PerformAllLog(w, env, calls[..|calls| - 1]);
    }
  }

  // ---- What one operation changes ----

  /** The records an operation names. */
  function Keys(op: Op): seq<Record> {
    match op
    case List => []
    case Create(r) => [r]
    case Delete(r) => [r]
    case Update(prior, next) => [prior, next]
  }

  /** A record that shares no key with the operation is in the store after it exactly when it was before. */
  lemma EffectFrame(s: Store, op: Op, r: Record)
    requires forall k :: k in Keys(op) ==> !SameKey(r, k)
    ensures r in Effect(s, op) <==> r in s
  {
    match op
    case List =>
    case Create(k) => assert k in Keys(op);
    case Delete(k) => assert k in Keys(op);
    case Update(prior, next) => assert prior in Keys(op) && next in Keys(op);
  }

  /** No interference and no failures. */
  ghost predicate Quiet(env: Env) {
    && (forall n :: env.others(n) == [])
    && (forall n :: env.outcome(n) == Succeed)
  }

  lemma QuietPerform(w: World, env: Env, c: Call)
    requires Quiet(env)
    ensures Perform(w, env, c).stores == Write(w.stores, c)
    ensures LastReply(Perform(w, env, c)) == ReplyTo(At(w.stores, c.id), c.op, Succeed)
    ensures forall id :: id != c.id ==> At(Perform(w, env, c).stores, id) == At(w.stores, id)
  {
  }
}
