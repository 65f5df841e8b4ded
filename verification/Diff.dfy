/** The record-set diff: text keys, the four lists, and what applying them to a store does. */
module Diff {
  import opened Wrappers
  import opened Strings
  import opened Names
  import opened Backend

  // ---- Decimal text ----

  function Digit(n: nat): char
    requires n < 10
  {
    '0' + n as char
  }

  /** "%d" of a non-negative number. */
  function Decimal(n: nat): (s: string)
    ensures s != ""
    ensures forall i :: 0 <= i < |s| ==> '0' <= s[i] <= '9'
  {
    if n < 10 then [Digit(n)] else Decimal(n / 10) + [Digit(n % 10)]
  }

  function DecimalValue(s: string): nat
    requires forall i :: 0 <= i < |s| ==> '0' <= s[i] <= '9'
  {
    if s == "" then 0 else 10 * DecimalValue(s[..|s| - 1]) + (s[|s| - 1] - '0') as nat
  }

  lemma {:induction false} DecimalReads(n: nat)
    ensures DecimalValue(Decimal(n)) == n
  {
    var s := Decimal(n);
    if n < 10 {
      assert s[..0] == "";
    } else {
      DecimalReads(n / 10);
      assert s[..|s| - 1] == Decimal(n / 10);
    }
  }

  lemma DecimalInjective(a: nat, b: nat)
    requires Decimal(a) == Decimal(b)
    ensures a == b
  {
    DecimalReads(a);
    DecimalReads(b);
  }

  // ---- Keys ----

  function TypeText(t: RecordType): string {
    match t
    case A => "A"
    case AAAA => "AAAA"
    case CNAME => "CNAME"
    case TXT => "TXT"
    case SRV => "SRV"
    case HTTPS => "HTTPS"
    case Other(name) => name
  }

  predicate UpperCase(c: char) {
    'A' <= c <= 'Z'
  }

  /** A type is not spelled like another one, starts with a capital and has no separator in it. */
  predicate ProperType(t: RecordType) {
    t.Other? ==>
      && t.name != "" && UpperCase(t.name[0]) && '|' !in t.name
      && t.name !in {"A", "AAAA", "CNAME", "TXT", "SRV", "HTTPS"}
  }

  lemma TypeTextProper(t: RecordType)
    requires ProperType(t)
    ensures TypeText(t) != "" && UpperCase(TypeText(t)[0]) && '|' !in TypeText(t)
  {
  }

  lemma TypeTextInjective(a: RecordType, b: RecordType)
    requires ProperType(a) && ProperType(b) && TypeText(a) == TypeText(b)
    ensures a == b
  {
  }

  function SrvKey(d: SrvData): string {
    Decimal(d.priority) + ":" + Decimal(d.weight) + ":" + Decimal(d.port)
  }

  function SrvPart(r: Record): string {
    if r.rtype.SRV? && r.srv.Some? then "|" + SrvKey(r.srv.value) else ""
  }

  /** recordKey. */
  function RecordKey(r: Record): string {
    Normalize(r.host) + "|" + TypeText(r.rtype) + "|" + r.target + SrvPart(r)
  }

  lemma SrvKeyInjective(a: SrvData, b: SrvData)
    requires SrvKey(a) == SrvKey(b)
    ensures a == b
  {
    var ra, rb := Decimal(a.weight) + ":" + Decimal(a.port), Decimal(b.weight) + ":" + Decimal(b.port);
    assert SrvKey(a) == Decimal(a.priority) + [':'] + ra && SrvKey(b) == Decimal(b.priority) + [':'] + rb;
    CutUnique(Decimal(a.priority), Decimal(b.priority), ra, rb, ':');
    CutUnique(Decimal(a.weight), Decimal(b.weight), Decimal(a.port), Decimal(b.port), ':');
    DecimalInjective(a.priority, b.priority);
    DecimalInjective(a.weight, b.weight);
    DecimalInjective(a.port, b.port);
  }

  lemma {:induction false} LowerHasNoCapital(s: string)
    ensures |Lower(s)| == |s| && forall i :: 0 <= i < |s| ==> !UpperCase(Lower(s)[i])
  {
  }

  /** A canonical host ends where the first bar followed by a capital is. */
  lemma HostsAgree(g: string, h: string, x: string, y: string)
    requires forall i :: 0 <= i < |h| ==> !UpperCase(h[i])
    requires x != "" && y != "" && UpperCase(x[0]) && UpperCase(y[0])
    requires g + ['|'] + x == h + ['|'] + y
    ensures |g| >= |h|
  {
    var s := g + ['|'] + x;
    assert s[|g| + 1] == x[0];
    assert forall i :: 0 <= i < |h| ==> s[i] == h[i];
    assert s[|h|] == '|';
  }

  /** Two texts cut at their last bar agree only if both halves agree. */
  lemma LastCutUnique(p: string, q: string, x: string, y: string)
    requires '|' !in x && '|' !in y
    requires p + ['|'] + x == q + ['|'] + y
    ensures p == q && x == y
  {
    var s := p + ['|'] + x;
    assert s[|p|] == '|' && s[|q|] == '|';
    assert forall i :: |p| < i < |s| ==> s[i] == x[i - |p| - 1];
    assert forall i :: |q| < i < |s| ==> s[i] == y[i - |q| - 1];
    assert s[..|p|] == p && s[..|q|] == q && s[|p| + 1..] == x && s[|q| + 1..] == y;
  }

  /** What follows the host in a key. */
  function KeyTail(r: Record): string {
    TypeText(r.rtype) + ['|'] + (r.target + SrvPart(r))
  }

  lemma KeyText(r: Record)
    requires ProperType(r.rtype)
    ensures RecordKey(r) == Normalize(r.host) + ['|'] + KeyTail(r)
    ensures KeyTail(r) != "" && UpperCase(KeyTail(r)[0])
  {
    TypeTextProper(r.rtype);
  }

  lemma KeyHosts(a: Record, b: Record)
    requires ProperType(a.rtype) && ProperType(b.rtype) && RecordKey(a) == RecordKey(b)
    ensures Normalize(a.host) == Normalize(b.host) && KeyTail(a) == KeyTail(b)
  {
    KeyText(a);
    KeyText(b);
    LowerHasNoCapital(TrimDot(a.host));
    LowerHasNoCapital(TrimDot(b.host));
    HeadsAgree(Normalize(a.host), Normalize(b.host), KeyTail(a), KeyTail(b));
  }

  lemma HeadsAgree(g: string, h: string, x: string, y: string)
    requires forall i :: 0 <= i < |g| ==> !UpperCase(g[i])
    requires forall i :: 0 <= i < |h| ==> !UpperCase(h[i])
    requires x != "" && y != "" && UpperCase(x[0]) && UpperCase(y[0])
    requires g + ['|'] + x == h + ['|'] + y
    ensures g == h && x == y
  {
    HostsAgree(g, h, x, y);
    HostsAgree(h, g, y, x);
    var s := g + ['|'] + x;
    assert s[..|g|] == g && s[..|h|] == h && s[|g| + 1..] == x && s[|h| + 1..] == y;
  }

  lemma KeyParts(a: Record, b: Record)
    requires ProperType(a.rtype) && ProperType(b.rtype) && RecordKey(a) == RecordKey(b)
    ensures Normalize(a.host) == Normalize(b.host) && a.rtype == b.rtype
    ensures a.target + SrvPart(a) == b.target + SrvPart(b)
  {
    KeyHosts(a, b);
    TypeTextProper(a.rtype);
    TypeTextProper(b.rtype);
    CutUnique(TypeText(a.rtype), TypeText(b.rtype), a.target + SrvPart(a), b.target + SrvPart(b), '|');
    TypeTextInjective(a.rtype, b.rtype);
  }

  /** An SRV record without SRV data whose target reads like another one's target and data. */
  predicate BareClash(a: Record, b: Record) {
    && Normalize(a.host) == Normalize(b.host) && a.rtype.SRV? && b.rtype.SRV?
    && a.srv.None? && b.srv.Some?
    && a.target == b.target + "|" + SrvKey(b.srv.value)
  }

  lemma NoBarInSrvKey(d: SrvData)
    ensures '|' !in SrvKey(d)
  {
  }

  lemma TailsAgree(a: Record, b: Record)
    requires a.rtype == b.rtype && Normalize(a.host) == Normalize(b.host)
    requires a.target + SrvPart(a) == b.target + SrvPart(b)
    ensures SameKey(a, b) || BareClash(a, b) || BareClash(b, a)
  {
    hide SrvKey;
    hide Normalize;
    if a.rtype.SRV? && a.srv.Some? && b.srv.Some? {
      var x, y := SrvKey(a.srv.value), SrvKey(b.srv.value);
      NoBarInSrvKey(a.srv.value);
      NoBarInSrvKey(b.srv.value);
      assert a.target + SrvPart(a) == a.target + ['|'] + x && b.target + SrvPart(b) == b.target + ['|'] + y;
      LastCutUnique(a.target, b.target, x, y);
      SrvKeyInjective(a.srv.value, b.srv.value);
    } else if a.rtype.SRV? && a.srv.Some? {
      assert b.target + "" == b.target && a.target + "|" + SrvKey(a.srv.value) == a.target + SrvPart(a);
    } else if a.rtype.SRV? && b.srv.Some? {
      assert a.target + "" == a.target && b.target + "|" + SrvKey(b.srv.value) == b.target + SrvPart(b);
    } else {
      assert a.target + "" == a.target && b.target + "" == b.target;
    }
  }

  /**
   * Two records share a text key exactly when a provider takes them for the same record, or one of
   * them is an SRV record without SRV data whose target spells out the other's.
   */
  lemma KeyExactly(a: Record, b: Record)
    requires ProperType(a.rtype) && ProperType(b.rtype)
    ensures RecordKey(a) == RecordKey(b) <==> SameKey(a, b) || BareClash(a, b) || BareClash(b, a)
  {
    if RecordKey(a) == RecordKey(b) {
      KeyParts(a, b);
      TailsAgree(a, b);
    }
    if BareClash(a, b) { BareClashCollides(a, b); }
    if BareClash(b, a) { BareClashCollides(b, a); }
  }

  lemma BareClashCollides(a: Record, b: Record)
    requires BareClash(a, b)
    ensures RecordKey(a) == RecordKey(b)
  {
  }

  /** No bar in the target of an SRV record without SRV data. */
  predicate Telling(r: Record) {
    ProperType(r.rtype) && (r.rtype.SRV? && r.srv.None? ==> '|' !in r.target)
  }

  lemma TellingKeys(a: Record, b: Record)
    requires Telling(a) && Telling(b)
    ensures RecordKey(a) == RecordKey(b) <==> SameKey(a, b)
  {
    KeyExactly(a, b);
  }

  // ---- The diff ----

  datatype Pair = Pair(prior: Record, next: Record)

  datatype RecordDiff =
    RecordDiff(toCreate: seq<Record>, toUpdate: seq<Pair>, toDelete: seq<Record>, same: seq<Record>)

  /** Records under their keys; of two with one key the later stays. */
  function Keyed(rs: seq<Record>): map<string, Record> {
    if rs == [] then map[] else Keyed(rs[..|rs| - 1])[RecordKey(rs[|rs| - 1]) := rs[|rs| - 1]]
  }

  /** recordNeedsUpdate. */
  predicate NeedsUpdate(prior: Record, next: Record) {
    prior.ttl != next.ttl || (prior.rtype.SRV? && prior.srv != next.srv)
  }

  /** The records of `m` under the keys of `order` that are among `keys`, in that order. */
  ghost function Pick(order: seq<string>, m: map<string, Record>, keys: set<string>): seq<Record> {
    if order == [] then []
    else
      var n := |order| - 1;
      Pick(order[..n], m, keys) + (if order[n] in keys && order[n] in m then [m[order[n]]] else [])
  }

  ghost function PickPairs(order: seq<string>, e: map<string, Record>, d: map<string, Record>): seq<Pair> {
    if order == [] then []
    else
      var n := |order| - 1;
      var k := order[n];
      PickPairs(order[..n], e, d) + (if k in Changed(e, d) then [Pair(e[k], d[k])] else [])
  }

  ghost function Changed(e: map<string, Record>, d: map<string, Record>): set<string> {
    set k | k in e && k in d && NeedsUpdate(e[k], d[k])
  }

  ghost function Kept(e: map<string, Record>, d: map<string, Record>): set<string> {
    set k | k in e && k in d && !NeedsUpdate(e[k], d[k])
  }

  /** The diff of two keyed sets, when the maps are walked in these orders. */
  ghost function DiffOf(e: map<string, Record>, d: map<string, Record>, dOrder: seq<string>, eOrder: seq<string>): RecordDiff {
    RecordDiff(
      Pick(dOrder, d, d.Keys - e.Keys),
      PickPairs(dOrder, e, d),
      Pick(eOrder, e, e.Keys - d.Keys),
      Pick(dOrder, e, Kept(e, d)))
  }

  lemma PickStep(order: seq<string>, m: map<string, Record>, keys: set<string>, k: string)
    ensures Pick(order + [k], m, keys) == Pick(order, m, keys) + (if k in keys && k in m then [m[k]] else [])
  {
  }

  /** CompareRecordSets. */
  method CompareRecordSets(existing: seq<Record>, desired: seq<Record>)
      returns (diff: RecordDiff, ghost dOrder: seq<string>, ghost eOrder: seq<string>)
    ensures multiset(dOrder) == multiset(Keyed(desired).Keys) && multiset(eOrder) == multiset(Keyed(existing).Keys)
    ensures diff == DiffOf(Keyed(existing), Keyed(desired), dOrder, eOrder)
    ensures Sorts(Keyed(existing), Keyed(desired), diff)
  {
    hide RecordKey;
    hide Sorts;
    var e := BuildMap(existing);
    var d := BuildMap(desired);
    var created, pairs, same;
    created, pairs, same, dOrder := CompareDesired(e, d);
    var removed;
    removed, eOrder := CollectRemoved(e, d);
    diff := RecordDiff(created, pairs, removed, same);
    KeyedWell(existing);
    KeyedWell(desired);
    DiffSorts(e, d, dOrder, eOrder);
  }

  /** Which record belongs in which list. */
  ghost predicate Sorts(e: map<string, Record>, d: map<string, Record>, diff: RecordDiff) {
    && (forall r :: r in diff.toCreate <==> RecordKey(r) in d && RecordKey(r) !in e && d[RecordKey(r)] == r)
    && (forall r :: r in diff.toDelete <==> RecordKey(r) in e && RecordKey(r) !in d && e[RecordKey(r)] == r)
    && (forall r :: r in diff.same <==> RecordKey(r) in Kept(e, d) && e[RecordKey(r)] == r)
    && (forall p :: p in diff.toUpdate <==>
          RecordKey(p.next) in Changed(e, d) && p == Pair(e[RecordKey(p.next)], d[RecordKey(p.next)]))
  }

  method BuildMap(rs: seq<Record>) returns (m: map<string, Record>)
    ensures m == Keyed(rs)
  {
    m := map[];
    for i := 0 to |rs|
      invariant m == Keyed(rs[..i])
    {
      assert rs[..i + 1][..i] == rs[..i];
      m := m[RecordKey(rs[i]) := rs[i]];
    }
    assert rs[..|rs|] == rs;
  }

  /** The loop over the desired map. */
  method CompareDesired(e: map<string, Record>, d: map<string, Record>)
      returns (created: seq<Record>, pairs: seq<Pair>, same: seq<Record>, ghost order: seq<string>)
    ensures multiset(order) == multiset(d.Keys)
    ensures created == Pick(order, d, d.Keys - e.Keys)
    ensures pairs == PickPairs(order, e, d)
    ensures same == Pick(order, e, Kept(e, d))
  {
    created, pairs, same, order := [], [], [], [];
    var left := d.Keys;
    while left != {}
      invariant left <= d.Keys && multiset(order) + multiset(left) == multiset(d.Keys)
      invariant created == Pick(order, d, d.Keys - e.Keys)
      invariant pairs == PickPairs(order, e, d)
      invariant same == Pick(order, e, Kept(e, d))
      decreases |left|
    {
      var k :| k in left;
      left := left - {k};
      assert (order + [k])[..|order|] == order;
      if k in e {
        if NeedsUpdate(e[k], d[k]) {
          pairs := pairs + [Pair(e[k], d[k])];
        } else {
          same := same + [e[k]];
        }
      } else {
        created := created + [d[k]];
      }
      order := order + [k];
    }
  }

  /** The loop over the existing map. */
  method CollectRemoved(e: map<string, Record>, d: map<string, Record>)
      returns (removed: seq<Record>, ghost order: seq<string>)
    ensures multiset(order) == multiset(e.Keys)
    ensures removed == Pick(order, e, e.Keys - d.Keys)
  {
    removed, order := [], [];
    var left := e.Keys;
    while left != {}
      invariant left <= e.Keys && multiset(order) + multiset(left) == multiset(e.Keys)
      invariant removed == Pick(order, e, e.Keys - d.Keys)
      decreases |left|
    {
      var k :| k in left;
      left := left - {k};
      PickStep(order, e, e.Keys - d.Keys, k);
      if k !in d {
        removed := removed + [e[k]];
      }
      order := order + [k];
    }
  }

  // ---- What the lists hold ----

  ghost predicate WellKeyed(m: map<string, Record>) {
    forall k :: k in m ==> RecordKey(m[k]) == k
  }

  lemma {:induction false} KeyedWell(rs: seq<Record>)
    ensures WellKeyed(Keyed(rs))
    decreases |rs|
  {
    if rs != [] {
      KeyedWell(rs[..|rs| - 1]);
    }
  }

  function KeysOf(rs: seq<Record>): seq<string> {
    seq(|rs|, i requires 0 <= i < |rs| => RecordKey(rs[i]))
  }

  lemma {:induction false} Picked(order: seq<string>, m: map<string, Record>, keys: set<string>, r: Record)
    requires WellKeyed(m)
    ensures r in Pick(order, m, keys) <==>
              var k := RecordKey(r); k in order && k in keys && k in m && m[k] == r
    decreases |order|
  {
    if order != [] {
      var n := |order| - 1;
      assert order == order[..n] + [order[n]];
      Picked(order[..n], m, keys, r);
    }
  }

  lemma {:induction false} PickedPair(order: seq<string>, e: map<string, Record>, d: map<string, Record>, p: Pair)
    requires WellKeyed(e) && WellKeyed(d)
    ensures p in PickPairs(order, e, d) <==>
              var k := RecordKey(p.next); k in order && k in Changed(e, d) && p == Pair(e[k], d[k])
    decreases |order|
  {
    if order != [] {
      var n := |order| - 1;
      assert order == order[..n] + [order[n]];
      PickedPair(order[..n], e, d, p);
    }
  }

  /**
   * The lists partition the keys: each desired key is in exactly one of created, updated and same, and
   * each existing key in exactly one of deleted, updated and same.
   */
  lemma {:induction false} DesiredPartition(order: seq<string>, e: map<string, Record>, d: map<string, Record>)
    requires WellKeyed(e) && WellKeyed(d) && forall k :: k in order ==> k in d
    ensures multiset(KeysOf(Pick(order, d, d.Keys - e.Keys)))
          + multiset(KeysOf(Nexts(PickPairs(order, e, d))))
          + multiset(KeysOf(Pick(order, e, Kept(e, d)))) == multiset(order)
    decreases |order|
  {
    hide RecordKey;
    hide NeedsUpdate;
    if order != [] {
      var n := |order| - 1;
      var k := order[n];
      assert order == order[..n] + [k];
      DesiredPartition(order[..n], e, d);
      PickSnoc(order, d, d.Keys - e.Keys);
      PickSnoc(order, e, Kept(e, d));
      NextsPicked(order[..n], e, d);
      NextsPicked(order, e, d);
      PickSnoc(order, d, Changed(e, d));
      assert k in d.Keys - e.Keys || k in Changed(e, d) || k in Kept(e, d);
    }
  }

  lemma {:induction false} ExistingPartition(order: seq<string>, e: map<string, Record>, d: map<string, Record>)
    requires WellKeyed(e) && WellKeyed(d) && forall k :: k in order ==> k in e
    ensures multiset(KeysOf(Pick(order, e, e.Keys - d.Keys)))
          + multiset(KeysOf(Nexts(PickPairs(order, e, d))))
          + multiset(KeysOf(Pick(order, e, Kept(e, d)))) == multiset(order)
    decreases |order|
  {
    hide RecordKey;
    hide NeedsUpdate;
    if order != [] {
      var n := |order| - 1;
      var k := order[n];
      assert order == order[..n] + [k];
      ExistingPartition(order[..n], e, d);
      PickSnoc(order, e, e.Keys - d.Keys);
      PickSnoc(order, e, Kept(e, d));
      NextsPicked(order[..n], e, d);
      NextsPicked(order, e, d);
      PickSnoc(order, d, Changed(e, d));
      assert k in e.Keys - d.Keys || k in Changed(e, d) || k in Kept(e, d);
    }
  }

  function Nexts(ps: seq<Pair>): seq<Record> {
    seq(|ps|, i requires 0 <= i < |ps| => ps[i].next)
  }

  lemma KeysSnoc(rs: seq<Record>, r: Record)
    ensures KeysOf(rs + [r]) == KeysOf(rs) + [RecordKey(r)]
  {
  }

  lemma PickSnoc(order: seq<string>, m: map<string, Record>, keys: set<string>)
    requires WellKeyed(m) && keys <= m.Keys && order != []
    ensures var n := |order| - 1;
            KeysOf(Pick(order, m, keys)) == KeysOf(Pick(order[..n], m, keys)) + (if order[n] in keys then [order[n]] else [])
  {
    var n := |order| - 1;
    if order[n] in keys {
      assert Pick(order, m, keys) == Pick(order[..n], m, keys) + [m[order[n]]];
      KeysSnoc(Pick(order[..n], m, keys), m[order[n]]);
    } else {
      assert Pick(order, m, keys) == Pick(order[..n], m, keys);
    }
  }

  lemma NextsSnoc(ps: seq<Pair>, p: Pair)
    ensures Nexts(ps + [p]) == Nexts(ps) + [p.next]
  {
  }

  lemma {:induction false} NextsPicked(order: seq<string>, e: map<string, Record>, d: map<string, Record>)
    ensures Nexts(PickPairs(order, e, d)) == Pick(order, d, Changed(e, d))
    decreases |order|
  {
    hide RecordKey;
    if order != [] {
      var n := |order| - 1;
      NextsPicked(order[..n], e, d);
      if order[n] in Changed(e, d) {
        NextsSnoc(PickPairs(order[..n], e, d), Pair(e[order[n]], d[order[n]]));
      }
    }
  }

  // ---- Applying the diff ----

  function DeleteAll(s: Store, rs: seq<Record>): Store {
    if rs == [] then s else Effect(DeleteAll(s, rs[..|rs| - 1]), Delete(rs[|rs| - 1]))
  }

  function UpdateAll(s: Store, ps: seq<Pair>): Store {
    if ps == [] then s else Effect(UpdateAll(s, ps[..|ps| - 1]), Update(ps[|ps| - 1].prior, ps[|ps| - 1].next))
  }

  function CreateAll(s: Store, rs: seq<Record>): Store {
    if rs == [] then s else Effect(CreateAll(s, rs[..|rs| - 1]), Create(rs[|rs| - 1]))
  }

  function ApplyDiff(s: Store, diff: RecordDiff): Store {
    CreateAll(UpdateAll(DeleteAll(s, diff.toDelete), diff.toUpdate), diff.toCreate)
  }

  ghost predicate AllTelling(rs: seq<Record>) {
    forall r :: r in rs ==> Telling(r)
  }

  ghost predicate HasKey(rs: seq<Record>, key: string) {
    exists r :: r in rs && RecordKey(r) == key
  }

  lemma {:induction false} AfterDeletes(s: Store, rs: seq<Record>, r: Record)
    requires AllTelling(s) && AllTelling(rs)
    ensures r in DeleteAll(s, rs) <==> r in s && !HasKey(rs, RecordKey(r))
    decreases |rs|
  {
    if rs != [] {
      var n := |rs| - 1;
      assert rs == rs[..n] + [rs[n]];
      AfterDeletes(s, rs[..n], r);
      assert HasKey(rs, RecordKey(r)) <==> HasKey(rs[..n], RecordKey(r)) || RecordKey(rs[n]) == RecordKey(r);
      if r in s { TellingKeys(r, rs[n]); }
    }
  }

  ghost predicate TellingPairs(ps: seq<Pair>) {
    forall p :: p in ps ==> Telling(p.prior) && Telling(p.next) && RecordKey(p.prior) == RecordKey(p.next)
  }

  ghost predicate NextKey(ps: seq<Pair>, key: string) {
    exists p :: p in ps && RecordKey(p.next) == key
  }

  ghost predicate IsNext(ps: seq<Pair>, r: Record) {
    exists p :: p in ps && p.next == r
  }

  lemma {:induction false} AfterUpdates(s: Store, ps: seq<Pair>, r: Record)
    requires AllTelling(s) && TellingPairs(ps) && r in UpdateAll(s, ps)
    ensures (r in s && !NextKey(ps, RecordKey(r))) || IsNext(ps, r)
    decreases |ps|
  {
    hide RecordKey;
    hide Telling;
    if ps != [] {
      var n := |ps| - 1;
      var q := ps[n];
      assert ps == ps[..n] + [q];
      assert q in ps && forall p :: p in ps ==> p in ps[..n] || p == q;
      if r != q.next {
        assert r in UpdateAll(s, ps[..n]) && !SameKey(r, q.prior);
        AfterUpdates(s, ps[..n], r);
        if r in s { TellingKeys(r, q.prior); }
      }
    }
  }

  lemma ReplaceKeepsKeys(t: Store, q: Pair, key: string)
    requires AllTelling(t) && TellingPairs([q])
    ensures HasKey(Replace(t, q.prior, q.next), key) <==> HasKey(t, key)
  {
  }

  lemma TellingAfterUpdates(s: Store, ps: seq<Pair>)
    requires AllTelling(s) && TellingPairs(ps)
    ensures AllTelling(UpdateAll(s, ps))
  {
  }

  lemma {:induction false} KeysAfterUpdates(s: Store, ps: seq<Pair>, key: string)
    requires AllTelling(s) && TellingPairs(ps)
    ensures AllTelling(UpdateAll(s, ps))
    ensures HasKey(UpdateAll(s, ps), key) <==> HasKey(s, key)
    decreases |ps|
  {
    hide RecordKey;
    hide Telling;
    TellingAfterUpdates(s, ps);
    if ps != [] {
      var n := |ps| - 1;
      assert ps[n] in ps && forall p :: p in ps[..n] ==> p in ps;
      KeysAfterUpdates(s, ps[..n], key);
      ReplaceKeepsKeys(UpdateAll(s, ps[..n]), ps[n], key);
    }
  }

  lemma {:induction false} AfterCreates(s: Store, rs: seq<Record>, r: Record)
    requires r in CreateAll(s, rs)
    ensures r in s || r in rs
    decreases |rs|
  {
    if rs != [] {
      var n := |rs| - 1;
      assert rs == rs[..n] + [rs[n]];
      AfterCreate(CreateAll(s, rs[..n]), rs[n], r);
      if r != rs[n] { AfterCreates(s, rs[..n], r); }
    }
  }

  lemma AfterCreate(t: Store, c: Record, r: Record)
    ensures r in Effect(t, Create(c)) ==> r in t || r == c
  {
  }

  lemma {:induction false} KeysAfterCreates(s: Store, rs: seq<Record>, key: string)
    requires AllTelling(s) && AllTelling(rs)
    ensures HasKey(CreateAll(s, rs), key) <==> HasKey(s, key) || HasKey(rs, key)
    decreases |rs|
  {
    if rs != [] {
      var n := |rs| - 1;
      assert rs == rs[..n] + [rs[n]];
      KeysAfterCreates(s, rs[..n], key);
      forall r | r in CreateAll(s, rs[..n]) ensures Telling(r) { AfterCreates(s, rs[..n], r); }
      CreateAddsKey(CreateAll(s, rs[..n]), rs[n], key);
      assert HasKey(rs, key) <==> HasKey(rs[..n], key) || RecordKey(rs[n]) == key;
    }
  }

  lemma CreateAddsKey(t: Store, c: Record, key: string)
    requires AllTelling(t) && Telling(c)
    ensures HasKey(Effect(t, Create(c)), key) <==> HasKey(t, key) || RecordKey(c) == key
  {
  }

  // ---- The diff reaches the desired set ----

  lemma {:induction false} KeyedHas(rs: seq<Record>, key: string)
    ensures key in Keyed(rs) <==> HasKey(rs, key)
    ensures key in Keyed(rs) ==> Keyed(rs)[key] in rs
    decreases |rs|
  {
    if rs != [] {
      var n := |rs| - 1;
      assert rs == rs[..n] + [rs[n]];
      KeyedHas(rs[..n], key);
      assert HasKey(rs, key) <==> HasKey(rs[..n], key) || RecordKey(rs[n]) == key;
    }
  }

  /** Orders in which the two maps may be walked. */
  ghost predicate Walks(dOrder: seq<string>, eOrder: seq<string>, e: map<string, Record>, d: map<string, Record>) {
    multiset(dOrder) == multiset(d.Keys) && multiset(eOrder) == multiset(e.Keys)
  }

  lemma WalksAll(order: seq<string>, keys: set<string>)
    requires multiset(order) == multiset(keys)
    ensures forall k :: k in order <==> k in keys
  {
    forall k ensures k in order <==> k in keys {
      assert k in order <==> k in multiset(order);
    }
  }

  /** Whatever the orders, each list holds exactly the records that belong in it. */
  lemma DiffSorts(e: map<string, Record>, d: map<string, Record>, dOrder: seq<string>, eOrder: seq<string>)
    requires WellKeyed(e) && WellKeyed(d) && Walks(dOrder, eOrder, e, d)
    ensures Sorts(e, d, DiffOf(e, d, dOrder, eOrder))
  {
    hide RecordKey;
    hide Pick;
    hide PickPairs;
    hide NeedsUpdate;
    var diff := DiffOf(e, d, dOrder, eOrder);
    WalksAll(dOrder, d.Keys);
    WalksAll(eOrder, e.Keys);
    forall r ensures r in diff.toCreate <==> RecordKey(r) in d && RecordKey(r) !in e && d[RecordKey(r)] == r {
      Picked(dOrder, d, d.Keys - e.Keys, r);
    }
    forall r ensures r in diff.toDelete <==> RecordKey(r) in e && RecordKey(r) !in d && e[RecordKey(r)] == r {
      Picked(eOrder, e, e.Keys - d.Keys, r);
    }
    forall r ensures r in diff.same <==> RecordKey(r) in Kept(e, d) && e[RecordKey(r)] == r {
      Picked(dOrder, e, Kept(e, d), r);
    }
    forall p ensures p in diff.toUpdate <==>
        RecordKey(p.next) in Changed(e, d) && p == Pair(e[RecordKey(p.next)], d[RecordKey(p.next)])
    {
      PickedPair(dOrder, e, d, p);
    }
  }

  /** The keys the lists of a diff hold. */
  lemma DiffKeys(e: map<string, Record>, d: map<string, Record>, dOrder: seq<string>, eOrder: seq<string>, key: string)
    requires WellKeyed(e) && WellKeyed(d) && Walks(dOrder, eOrder, e, d)
    ensures var diff := DiffOf(e, d, dOrder, eOrder);
            && (HasKey(diff.toCreate, key) <==> key in d && key !in e)
            && (HasKey(diff.toDelete, key) <==> key in e && key !in d)
            && (NextKey(diff.toUpdate, key) <==> key in Changed(e, d))
  {
    hide RecordKey;
    var diff := DiffOf(e, d, dOrder, eOrder);
    DiffSorts(e, d, dOrder, eOrder);
    if key in d && key !in e { assert d[key] in diff.toCreate; }
    if key in e && key !in d { assert e[key] in diff.toDelete; }
    if key in Changed(e, d) { assert Pair(e[key], d[key]) in diff.toUpdate; }
  }

  /** The lists hold records of the two sets only. */
  lemma DiffTelling(existing: seq<Record>, desired: seq<Record>, dOrder: seq<string>, eOrder: seq<string>)
    requires AllTelling(existing) && AllTelling(desired)
    ensures var diff := DiffOf(Keyed(existing), Keyed(desired), dOrder, eOrder);
            AllTelling(diff.toDelete) && TellingPairs(diff.toUpdate) && AllTelling(diff.toCreate)
  {
    hide RecordKey;
    hide Telling;
    var e, d := Keyed(existing), Keyed(desired);
    var diff := DiffOf(e, d, dOrder, eOrder);
    KeyedWell(existing);
    KeyedWell(desired);
    forall r | r in diff.toDelete ensures Telling(r) {
      Picked(eOrder, e, e.Keys - d.Keys, r);
      KeyedHas(existing, RecordKey(r));
    }
    forall r | r in diff.toCreate ensures Telling(r) {
      Picked(dOrder, d, d.Keys - e.Keys, r);
      KeyedHas(desired, RecordKey(r));
    }
    forall p | p in diff.toUpdate ensures Telling(p.prior) && Telling(p.next) && RecordKey(p.prior) == RecordKey(p.next) {
      PickedPair(dOrder, e, d, p);
      KeyedHas(existing, RecordKey(p.next));
      KeyedHas(desired, RecordKey(p.next));
    }
  }

  /**
   * An update only ever changes the TTL: the target is part of the key, so a changed target is a
   * deletion and a creation, and so are changed SRV data.
   */
  lemma UpdatesChangeOnlyTtl(
    existing: seq<Record>, desired: seq<Record>, dOrder: seq<string>, eOrder: seq<string>, p: Pair)
    requires AllTelling(existing) && AllTelling(desired)
    requires p in DiffOf(Keyed(existing), Keyed(desired), dOrder, eOrder).toUpdate
    ensures SameKey(p.prior, p.next) && p.prior.ttl != p.next.ttl
  {
    hide RecordKey;
    hide Telling;
    DiffTelling(existing, desired, dOrder, eOrder);
    TellingKeys(p.prior, p.next);
    KeyedWell(existing);
    KeyedWell(desired);
    PickedPair(dOrder, Keyed(existing), Keyed(desired), p);
  }

  /** Applying the diff leaves a store with exactly the desired keys. */
  lemma DiffReachesKeys(existing: seq<Record>, desired: seq<Record>, dOrder: seq<string>, eOrder: seq<string>, key: string)
    requires AllTelling(existing) && AllTelling(desired)
    requires Walks(dOrder, eOrder, Keyed(existing), Keyed(desired))
    ensures HasKey(ApplyDiff(existing, DiffOf(Keyed(existing), Keyed(desired), dOrder, eOrder)), key) <==> HasKey(desired, key)
  {
    hide RecordKey;
    hide Telling;
    var e, d := Keyed(existing), Keyed(desired);
    var diff := DiffOf(e, d, dOrder, eOrder);
    DiffTelling(existing, desired, dOrder, eOrder);
    var s1 := DeleteAll(existing, diff.toDelete);
    KeysAfterDeletes(existing, diff.toDelete, key);
    KeysAfterUpdates(s1, diff.toUpdate, key);
    KeysAfterCreates(UpdateAll(s1, diff.toUpdate), diff.toCreate, key);
    KeyedWell(existing);
    KeyedWell(desired);
    DiffKeys(e, d, dOrder, eOrder, key);
    KeyedHas(existing, key);
    KeyedHas(desired, key);
  }

  lemma KeysAfterDeletes(s: Store, rs: seq<Record>, key: string)
    requires AllTelling(s) && AllTelling(rs)
    ensures AllTelling(DeleteAll(s, rs))
    ensures HasKey(DeleteAll(s, rs), key) <==> HasKey(s, key) && !HasKey(rs, key)
  {
    hide RecordKey;
    hide Telling;
    forall r ensures r in DeleteAll(s, rs) <==> r in s && !HasKey(rs, RecordKey(r)) {
      AfterDeletes(s, rs, r);
    }
  }

  /** What the caller can see before the diff: the records the update will not reach have the right TTL already. */
  ghost predicate TtlReachable(existing: seq<Record>, desired: seq<Record>) {
    forall r :: r in existing && RecordKey(r) in Keyed(desired) ==> TtlSettled(existing, desired, r)
  }

  ghost predicate TtlSettled(existing: seq<Record>, desired: seq<Record>, r: Record)
    requires r in existing && RecordKey(r) in Keyed(desired)
  {
    KeyedHas(existing, RecordKey(r));
    r.ttl == Keyed(desired)[RecordKey(r)].ttl || NeedsUpdate(Keyed(existing)[RecordKey(r)], Keyed(desired)[RecordKey(r)])
  }

  /** Every record of the store has the TTL desired for its key. */
  ghost predicate TtlsAgree(s: Store, desired: seq<Record>) {
    forall r :: r in s ==> RecordKey(r) in Keyed(desired) && r.ttl == Keyed(desired)[RecordKey(r)].ttl
  }

  /** A record left by the diff was created, updated to, or neither deleted nor updated. */
  lemma LeftBy(existing: seq<Record>, desired: seq<Record>, dOrder: seq<string>, eOrder: seq<string>, r: Record)
    requires AllTelling(existing) && AllTelling(desired)
    requires Walks(dOrder, eOrder, Keyed(existing), Keyed(desired))
    requires r in ApplyDiff(existing, DiffOf(Keyed(existing), Keyed(desired), dOrder, eOrder))
    ensures var e, d := Keyed(existing), Keyed(desired);
            && RecordKey(r) in d
            && (r == d[RecordKey(r)] || (r in existing && RecordKey(r) in Kept(e, d)))
  {
    hide RecordKey;
    hide Telling;
    hide NeedsUpdate;
    var e, d := Keyed(existing), Keyed(desired);
    var diff := DiffOf(e, d, dOrder, eOrder);
    DiffTelling(existing, desired, dOrder, eOrder);
    KeyedWell(existing);
    KeyedWell(desired);
    var s1 := DeleteAll(existing, diff.toDelete);
    KeysAfterDeletes(existing, diff.toDelete, RecordKey(r));
    AfterCreates(UpdateAll(s1, diff.toUpdate), diff.toCreate, r);
    if r in diff.toCreate {
      Picked(dOrder, d, d.Keys - e.Keys, r);
    } else {
      AfterUpdates(s1, diff.toUpdate, r);
      if IsNext(diff.toUpdate, r) {
        var p :| p in diff.toUpdate && p.next == r;
        PickedPair(dOrder, e, d, p);
      } else {
        AfterDeletes(existing, diff.toDelete, r);
        KeyedHas(existing, RecordKey(r));
        DiffKeys(e, d, dOrder, eOrder, RecordKey(r));
      }
    }
  }

  /** A record that needs no change survives the diff. */
  lemma KeptIsLeft(existing: seq<Record>, desired: seq<Record>, dOrder: seq<string>, eOrder: seq<string>, r: Record)
    requires AllTelling(existing) && AllTelling(desired)
    requires Walks(dOrder, eOrder, Keyed(existing), Keyed(desired))
    requires r in existing && RecordKey(r) in Kept(Keyed(existing), Keyed(desired))
    ensures r in ApplyDiff(existing, DiffOf(Keyed(existing), Keyed(desired), dOrder, eOrder))
  {
    hide RecordKey;
    hide Telling;
    hide NeedsUpdate;
    var e, d := Keyed(existing), Keyed(desired);
    var diff := DiffOf(e, d, dOrder, eOrder);
    DiffTelling(existing, desired, dOrder, eOrder);
    KeyedWell(existing);
    KeyedWell(desired);
    DiffKeys(e, d, dOrder, eOrder, RecordKey(r));
    AfterDeletes(existing, diff.toDelete, r);
    var s1 := DeleteAll(existing, diff.toDelete);
    KeysAfterDeletes(existing, diff.toDelete, "");
    SparedByUpdates(s1, diff.toUpdate, r);
    CreatesKeep(UpdateAll(s1, diff.toUpdate), diff.toCreate, r);
  }

  lemma {:induction false} SparedByUpdates(s: Store, ps: seq<Pair>, r: Record)
    requires TellingPairs(ps) && Telling(r) && r in s && !NextKey(ps, RecordKey(r))
    ensures r in UpdateAll(s, ps)
    decreases |ps|
  {
    hide RecordKey;
    hide Telling;
    hide SameKey;
    hide Replace;
    if ps != [] {
      var n := |ps| - 1;
      assert ps[n] in ps && forall p :: p in ps[..n] ==> p in ps;
      SparedByUpdates(s, ps[..n], r);
      TellingKeys(r, ps[n].prior);
    }
  }

  lemma {:induction false} CreatesKeep(s: Store, rs: seq<Record>, r: Record)
    requires r in s
    ensures r in CreateAll(s, rs)
    decreases |rs|
  {
    if rs != [] { CreatesKeep(s, rs[..|rs| - 1], r); }
  }

  /**
   * After the diff every record has the TTL desired for its key exactly when, before it, each existing
   * record with a desired key had that TTL or shared its key with a compared record that needs an update.
   */
  lemma DiffReachesTtlExactlyWhen(existing: seq<Record>, desired: seq<Record>, dOrder: seq<string>, eOrder: seq<string>)
    requires AllTelling(existing) && AllTelling(desired)
    requires Walks(dOrder, eOrder, Keyed(existing), Keyed(desired))
    ensures TtlsAgree(ApplyDiff(existing, DiffOf(Keyed(existing), Keyed(desired), dOrder, eOrder)), desired)
       <==> TtlReachable(existing, desired)
  {
    hide RecordKey;
    hide Telling;
    hide ApplyDiff;
    hide NeedsUpdate;
    var e, d := Keyed(existing), Keyed(desired);
    var s2 := ApplyDiff(existing, DiffOf(e, d, dOrder, eOrder));
    if TtlReachable(existing, desired) {
      forall r | r in s2 ensures RecordKey(r) in d && r.ttl == d[RecordKey(r)].ttl {
        LeftBy(existing, desired, dOrder, eOrder, r);
        if r != d[RecordKey(r)] { assert TtlSettled(existing, desired, r); }
      }
    }
    if TtlsAgree(s2, desired) {
      forall r | r in existing && RecordKey(r) in d ensures TtlSettled(existing, desired, r) {
        KeyedHas(existing, RecordKey(r));
        if !NeedsUpdate(e[RecordKey(r)], d[RecordKey(r)]) {
          KeptIsLeft(existing, desired, dOrder, eOrder, r);
        }
      }
    }
  }

  /** With one record per key the condition holds. */
  lemma OnePerKeyReaches(existing: seq<Record>, desired: seq<Record>)
    requires forall a, b :: a in existing && b in existing && RecordKey(a) == RecordKey(b) ==> a == b
    ensures TtlReachable(existing, desired)
  {
    hide RecordKey;
    KeyedWell(existing);
    forall r | r in existing && RecordKey(r) in Keyed(desired) ensures TtlSettled(existing, desired, r) {
      KeyedHas(existing, RecordKey(r));
    }
  }

  // ---- What the next diff compares ----

  /** The two maps say the same of this key. */
  predicate SameAt(m: map<string, Record>, n: map<string, Record>, key: string) {
    (key in m <==> key in n) && (key in m ==> m[key] == n[key])
  }

  lemma {:induction false} KeyedAppend(a: seq<Record>, b: seq<Record>)
    ensures Keyed(a + b) == Keyed(a) + Keyed(b)
    decreases |b|
  {
    hide RecordKey;
    if b == [] {
      assert a + b == a;
    } else {
      var n := |b| - 1;
      assert (a + b)[..|a + b| - 1] == a + b[..n];
      KeyedAppend(a, b[..n]);
    }
  }

  lemma KeyedOne(r: Record)
    ensures Keyed([r]) == map[RecordKey(r) := r]
  {
    assert [r][..0] == [];
  }

  lemma {:induction false} KeyedWithout(s: Store, k: Record, key: string)
    requires AllTelling(s) && Telling(k) && RecordKey(k) != key
    ensures SameAt(Keyed(Without(s, k)), Keyed(s), key)
  {
    hide RecordKey;
    hide Telling;
    hide SameKey;
    if s != [] {
      assert s == [s[0]] + s[1..];
      KeyedWithout(s[1..], k, key);
      TellingKeys(s[0], k);
      KeyedOne(s[0]);
      KeyedAppend([s[0]], s[1..]);
      KeyedAppend(if SameKey(s[0], k) then [] else [s[0]], Without(s[1..], k));
    }
  }

  lemma {:induction false} KeyedReplace(s: Store, p: Pair, key: string)
    requires AllTelling(s) && TellingPairs([p]) && RecordKey(p.next) != key
    ensures SameAt(Keyed(Replace(s, p.prior, p.next)), Keyed(s), key)
  {
    hide RecordKey;
    hide Telling;
    hide SameKey;
    if s != [] {
      assert s == [s[0]] + s[1..] && p in [p];
      KeyedReplace(s[1..], p, key);
      TellingKeys(s[0], p.prior);
      var x := if SameKey(s[0], p.prior) then p.next else s[0];
      KeyedOne(s[0]);
      KeyedOne(x);
      KeyedAppend([s[0]], s[1..]);
      KeyedAppend([x], Replace(s[1..], p.prior, p.next));
    }
  }

  lemma {:induction false} KeyedDeletes(s: Store, rs: seq<Record>, key: string)
    requires AllTelling(s) && AllTelling(rs) && !HasKey(rs, key)
    ensures SameAt(Keyed(DeleteAll(s, rs)), Keyed(s), key)
    decreases |rs|
  {
    hide RecordKey;
    hide Telling;
    if rs != [] {
      var n := |rs| - 1;
      assert rs[n] in rs && forall r :: r in rs[..n] ==> r in rs;
      KeyedDeletes(s, rs[..n], key);
      KeysAfterDeletes(s, rs[..n], key);
      KeyedWithout(DeleteAll(s, rs[..n]), rs[n], key);
    }
  }

  lemma {:induction false} KeyedUpdates(s: Store, ps: seq<Pair>, key: string)
    requires AllTelling(s) && TellingPairs(ps) && !NextKey(ps, key)
    ensures SameAt(Keyed(UpdateAll(s, ps)), Keyed(s), key)
    decreases |ps|
  {
    hide RecordKey;
    hide Telling;
    hide SameKey;
    hide Keyed;
    hide Replace;
    if ps != [] {
      var n := |ps| - 1;
      assert ps[n] in ps && forall p :: p in ps[..n] ==> p in ps;
      KeyedUpdates(s, ps[..n], key);
      TellingAfterUpdates(s, ps[..n]);
      KeyedReplace(UpdateAll(s, ps[..n]), ps[n], key);
    }
  }

  lemma {:induction false} KeyedCreates(s: Store, rs: seq<Record>, key: string)
    requires !HasKey(rs, key)
    ensures SameAt(Keyed(CreateAll(s, rs)), Keyed(s), key)
    decreases |rs|
  {
    hide RecordKey;
    if rs != [] {
      var n := |rs| - 1;
      assert rs[n] in rs && forall r :: r in rs[..n] ==> r in rs;
      KeyedCreates(s, rs[..n], key);
      KeyedSnoc(CreateAll(s, rs[..n]), rs[n]);
    }
  }

  /** What the next diff will compare under a key that needs no change is what this one compared. */
  lemma KeptStaysCompared(existing: seq<Record>, desired: seq<Record>, dOrder: seq<string>, eOrder: seq<string>, key: string)
    requires AllTelling(existing) && AllTelling(desired)
    requires Walks(dOrder, eOrder, Keyed(existing), Keyed(desired)) && key in Kept(Keyed(existing), Keyed(desired))
    ensures SameAt(Keyed(ApplyDiff(existing, DiffOf(Keyed(existing), Keyed(desired), dOrder, eOrder))), Keyed(existing), key)
  {
    hide RecordKey;
    hide Telling;
    hide NeedsUpdate;
    var e, d := Keyed(existing), Keyed(desired);
    var diff := DiffOf(e, d, dOrder, eOrder);
    DiffTelling(existing, desired, dOrder, eOrder);
    KeyedWell(existing);
    KeyedWell(desired);
    DiffKeys(e, d, dOrder, eOrder, key);
    var s1 := DeleteAll(existing, diff.toDelete);
    KeysAfterDeletes(existing, diff.toDelete, "");
    KeyedDeletes(existing, diff.toDelete, key);
    KeyedUpdates(s1, diff.toUpdate, key);
    KeyedCreates(UpdateAll(s1, diff.toUpdate), diff.toCreate, key);
  }

  /** Once a diff is applied, the next diff against the same desired set has nothing to do. */
  lemma SecondDiffIsEmpty(existing: seq<Record>, desired: seq<Record>, dOrder: seq<string>, eOrder: seq<string>,
                          dOrder2: seq<string>, eOrder2: seq<string>)
    requires AllTelling(existing) && AllTelling(desired)
    requires Walks(dOrder, eOrder, Keyed(existing), Keyed(desired))
    requires Walks(dOrder2, eOrder2, Keyed(ApplyDiff(existing, DiffOf(Keyed(existing), Keyed(desired), dOrder, eOrder))), Keyed(desired))
    ensures var s2 := ApplyDiff(existing, DiffOf(Keyed(existing), Keyed(desired), dOrder, eOrder));
            var diff2 := DiffOf(Keyed(s2), Keyed(desired), dOrder2, eOrder2);
            diff2.toCreate == [] && diff2.toUpdate == [] && diff2.toDelete == []
  {
    hide RecordKey;
    hide Telling;
    hide ApplyDiff;
    var d := Keyed(desired);
    var s2 := ApplyDiff(existing, DiffOf(Keyed(existing), d, dOrder, eOrder));
    var e2 := Keyed(s2);
    KeyedWell(s2);
    KeyedWell(desired);
    forall key ensures key in e2 <==> key in d {
      DiffReachesKeys(existing, desired, dOrder, eOrder, key);
      KeyedHas(s2, key);
      KeyedHas(desired, key);
    }
    forall key | key in e2 ensures !NeedsUpdate(e2[key], d[key]) {
      KeyedHas(s2, key);
      LeftBy(existing, desired, dOrder, eOrder, e2[key]);
      if key in Kept(Keyed(existing), d) {
        KeptStaysCompared(existing, desired, dOrder, eOrder, key);
      }
    }
    NothingToDo(e2, d, dOrder2, eOrder2);
  }

  lemma NothingToDo(e: map<string, Record>, d: map<string, Record>, dOrder: seq<string>, eOrder: seq<string>)
    requires e.Keys == d.Keys && WellKeyed(e) && WellKeyed(d)
    requires forall key :: key in e ==> !NeedsUpdate(e[key], d[key])
    ensures var diff := DiffOf(e, d, dOrder, eOrder);
            diff.toCreate == [] && diff.toUpdate == [] && diff.toDelete == []
  {
    hide RecordKey;
    var diff := DiffOf(e, d, dOrder, eOrder);
    PickNone(dOrder, d, d.Keys - e.Keys);
    PickNone(eOrder, e, e.Keys - d.Keys);
    assert Changed(e, d) == {};
    NextsPicked(dOrder, e, d);
    PickNone(dOrder, d, {});
    assert |Nexts(diff.toUpdate)| == |diff.toUpdate|;
  }

  lemma {:induction false} PickNone(order: seq<string>, m: map<string, Record>, keys: set<string>)
    requires keys == {}
    ensures Pick(order, m, keys) == []
    decreases |order|
  {
    if order != [] {
      PickNone(order[..|order| - 1], m, keys);
    }
  }

  lemma KeyedSnoc(rs: seq<Record>, r: Record)
    ensures Keyed(rs + [r]) == Keyed(rs)[RecordKey(r) := r]
  {
  }

  /** Of two existing records with one key only the later is compared: the other keeps its TTL. */
  lemma DuplicateKeepsTtl(a: Record, b: Record, eOrder: seq<string>, dOrder: seq<string>)
    requires Telling(a) && Telling(b) && RecordKey(a) == RecordKey(b) && a.ttl != b.ttl
    requires Walks(dOrder, eOrder, Keyed([a, b]), Keyed([b]))
    ensures !TtlsAgree(ApplyDiff([a, b], DiffOf(Keyed([a, b]), Keyed([b]), dOrder, eOrder)), [b])
  {
    hide RecordKey;
    hide Telling;
    assert [a, b] == [a] + [b] && [] + [b] == [b] && a in [a, b];
    KeyedSnoc([a], b);
    KeyedSnoc([], b);
    DiffReachesTtlExactlyWhen([a, b], [b], dOrder, eOrder);
    assert !TtlSettled([a, b], [b], a);
  }
}
