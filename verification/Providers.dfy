/** Provider instances: the calls they make on the stores. */
module Providers {
  import opened Wrappers
  import opened Names
  import opened Backend
  import M = Model
  import Own = Ownership

  /** The stores behind all providers, with the log of this process's calls. */
  class Network {
    var stores: map<Identity, Store>
    var log: seq<Event>
    const env: Env

    constructor (stores: map<Identity, Store>, env: Env)
      ensures this.stores == stores && log == [] && this.env == env
    {
      this.stores := stores;
      this.log := [];
      this.env := env;
    }

    function Now(): World
      reads this
    {
      World(stores, log)
    }

    method Ask(c: Call) returns (reply: Reply)
      modifies this
      ensures Now() == Perform(old(Now()), env, c)
      ensures reply == LastReply(Now())
    {
      var w := Perform(Now(), env, c);
      stores, log := w.stores, w.log;
      reply := LastReply(w);
    }
  }

  method ListRecords(net: Network, inst: M.Instance) returns (records: Option<Store>)
    modifies net
    ensures (net.Now(), records) == M.Listed(net.env, inst, old(net.Now()))
  {
    var reply := net.Ask(Call(inst.identity, List));
    records := if reply == Done then Some(At(net.stores, inst.identity)) else None;
  }

  /** UpdateRecord: native where the provider implements it, delete and create otherwise. */
  method UpdateRecord(net: Network, inst: M.Instance, prior: Record, want: Record) returns (ok: bool)
    modifies net
    ensures (net.Now(), ok) == M.UpdateRecord(net.env, inst, prior, want, old(net.Now()))
  {
    if inst.nativeUpdate {
      var reply := net.Ask(Call(inst.identity, Update(prior, want)));
      return reply == Done;
    }
    var reply := net.Ask(Call(inst.identity, Delete(prior)));
    if reply != Done {
      if reply != Missing {
        return false;
      }
    }
    reply := net.Ask(Call(inst.identity, Create(want)));
    return reply == Done;
  }

  /** DeleteRecordByTarget; what it returns is only logged. */
  method DeleteRecordByTarget(net: Network, inst: M.Instance, host: string, rtype: RecordType, target: string)
    modifies net
    ensures net.Now() == Perform(old(net.Now()), net.env, Call(inst.identity, Delete(Record(host, rtype, target, 0, None))))
  {
    var _ := net.Ask(Call(inst.identity, Delete(Record(host, rtype, target, 0, None))));
  }

  /** DeleteSRVRecord; what it returns is only logged. */
  method DeleteSRVRecord(net: Network, inst: M.Instance, host: string, target: string, srv: Option<SrvData>)
    modifies net
    ensures net.Now() == Perform(old(net.Now()), net.env, Call(inst.identity, Delete(Record(host, SRV, target, 0, srv))))
  {
    var _ := net.Ask(Call(inst.identity, Delete(Record(host, SRV, target, 0, srv))));
  }

  /** CreateOwnershipRecord; a conflict counts as success and other errors are only logged. */
  method CreateOwnershipRecord(net: Network, cfg: M.Config, inst: M.Instance, host: string, meta: M.Meta)
    modifies net
    ensures net.Now() == Perform(old(net.Now()), net.env, M.MarkCall(cfg, inst, host, meta))
  {
    var value := Own.MakeOwnershipValue(cfg.instanceID, meta);
    var _ := net.Ask(Call(inst.identity, Create(Record(Marker(host), TXT, value, inst.ttl, None))));
  }

  /** DeleteOwnershipRecord: the marker is named without metadata. */
  method DeleteOwnershipRecord(net: Network, cfg: M.Config, inst: M.Instance, host: string)
    modifies net
    ensures net.Now() == Perform(old(net.Now()), net.env, M.UnmarkCall(cfg, inst, host))
  {
    var value := Own.MakeOwnershipValue(cfg.instanceID, map[]);
    var _ := net.Ask(Call(inst.identity, Delete(Record(Marker(host), TXT, value, inst.ttl, None))));
  }

  /** RecoverOwnedHostnames. */
  method RecoverOwnedHostnames(net: Network, cfg: M.Config, inst: M.Instance) returns (hosts: Option<seq<M.Recovered>>)
    modifies net
    ensures var (w, listed) := M.Listed(net.env, inst, old(net.Now()));
            && net.Now() == w
            && hosts == if listed.Some? then Some(M.RecoverFrom(listed.value, cfg.instanceID)) else None
  {
    var listed := ListRecords(net, inst);
    if listed.None? { return None; }
    var s := listed.value;
    var found: seq<M.Recovered> := [];
    ghost var w := net.Now();
    for i := 0 to |s|
      invariant net.Now() == w
      invariant found == M.RecoverFrom(s[..i], cfg.instanceID)
    {
      assert s[..i + 1][..i] == s[..i];
      if s[i].rtype.TXT? && IsMarkerName(s[i].host) {
        var owned, instance, meta := Own.ParseOwnershipValue(s[i].target);
        if owned && instance == cfg.instanceID {
          found := found + [M.Recovered(MarkedHost(s[i].host), meta)];
        }
      }
    }
    assert s[..|s|] == s;
    return Some(found);
  }

  /** GetExistingRecords: the fallback when the cache has nothing for the provider. */
  method GetExistingRecords(net: Network, inst: M.Instance, host: string) returns (records: Store)
    modifies net
    ensures var (w, listed) := M.Listed(net.env, inst, old(net.Now()));
            && net.Now() == w
            && records == if listed.Some? then M.DataFolded(listed.value, host) else []
  {
    var listed := ListRecords(net, inst);
    records := [];
    if listed.None? { return; }
    var s := listed.value;
    for i := 0 to |s|
      invariant records == M.DataFolded(s[..i], host)
    {
      assert s[..i + 1][..i] == s[..i];
      if Lower(s[i].host) == Lower(host) && IsData(s[i].rtype) {
        records := records + [s[i]];
      }
    }
    assert s[..|s|] == s;
  }
}
