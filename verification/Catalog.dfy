/** The hostname catalog of a zone: numbered TXT chunks, a local index, first-fit and compaction. */
module Catalog {
  import opened Wrappers
  import opened Strings
  import opened Names

  const MAX_BYTES := 3500
  const MAX_NAME := 253
  const MAX_COUNT := 100

  type Chunk = seq<string>
  type Chunks = seq<Chunk>

  // ---- TXT data ----

  /** The text of a TXT record: its strings joined by spaces. */
  function JoinSpaces(strs: seq<string>): string {
    if strs == [] then ""
    else if |strs| == 1 then strs[0]
    else strs[0] + " " + JoinSpaces(strs[1..])
  }

  /** The length of the word a text starts with. */
  function WordLength(s: string): (n: nat)
    ensures n <= |s|
    ensures forall i :: 0 <= i < n ==> !White(s[i])
    ensures n < |s| ==> White(s[n])
  {
    if s == "" || White(s[0]) then 0 else 1 + WordLength(s[1..])
  }

  /** strings.Fields. */
  function Fields(s: string): seq<string>
    decreases |s|
  {
    if s == "" then []
    else if White(s[0]) then Fields(s[1..])
    else
      var n := WordLength(s);
      [s[..n]] + Fields(s[n..])
  }

  predicate Plain(name: string) {
    name != "" && forall i :: 0 <= i < |name| ==> !White(name[i])
  }

  predicate AllPlain(names: seq<string>) {
    forall i :: 0 <= i < |names| ==> Plain(names[i])
  }

  lemma {:induction false} WordThenSpace(w: string, rest: string)
    requires forall i :: 0 <= i < |w| ==> !White(w[i])
    requires rest == "" || White(rest[0])
    ensures WordLength(w + rest) == |w|
  {
    if w == "" {
      assert w + rest == rest;
    } else {
      assert (w + rest)[1..] == w[1..] + rest;
      WordThenSpace(w[1..], rest);
    }
  }

  lemma {:induction false} PlainAreRead(names: seq<string>)
    requires AllPlain(names)
    ensures Fields(JoinSpaces(names)) == names
  {
    if |names| == 1 {
      WordThenSpace(names[0], "");
      assert names[0] + "" == names[0];
    } else if |names| > 1 {
      var rest := " " + JoinSpaces(names[1..]);
      WordThenSpace(names[0], rest);
      var s := names[0] + rest;
      assert JoinSpaces(names) == s;
      assert s[..|names[0]|] == names[0] && s[|names[0]|..] == rest;
      assert rest[1..] == JoinSpaces(names[1..]);
      PlainAreRead(names[1..]);
      assert Fields(rest) == Fields(JoinSpaces(names[1..]));
    }
  }

  lemma {:induction false} FieldsArePlain(s: string)
    ensures AllPlain(Fields(s))
    decreases |s|
  {
    if s != "" {
      if White(s[0]) { FieldsArePlain(s[1..]); } else { FieldsArePlain(s[WordLength(s)..]); }
    }
  }

  /** Strings written into one TXT record are read back as the same strings exactly when none is empty or has white space. */
  lemma FieldsOfJoin(names: seq<string>)
    ensures Fields(JoinSpaces(names)) == names <==> AllPlain(names)
  {
    FieldsArePlain(JoinSpaces(names));
    if AllPlain(names) { PlainAreRead(names); }
  }

  // ---- The zone as the catalog sees it ----

  /** The strings of the TXT record of each chunk that has one. */
  type Zone = map<nat, Chunk>

  function ReadChunk(zone: Zone, i: nat): Chunk
    requires i in zone
  {
    Fields(JoinSpaces(zone[i]))
  }

  function FirstMissing(zone: Zone, i: nat): (n: nat)
    ensures i <= n && n !in zone
    ensures forall j :: i <= j < n ==> j in zone
    decreases |set k | k in zone && k >= i|
  {
    if i !in zone then i
    else
      assert (set k | k in zone && k >= i) == (set k | k in zone && k >= i + 1) + {i};
      FirstMissing(zone, i + 1)
  }

  /** What a fresh Load reads: the chunks from 0 up to the first that is missing. */
  function Load(zone: Zone): (chunks: Chunks)
    ensures |chunks| == FirstMissing(zone, 0)
    ensures forall i :: 0 <= i < |chunks| ==> i in zone && chunks[i] == ReadChunk(zone, i)
  {
    seq(FirstMissing(zone, 0), i requires 0 <= i < FirstMissing(zone, 0) => ReadChunk(zone, i))
  }

  function NamesIn(chunks: Chunks): set<string> {
    set i, x | 0 <= i < |chunks| && x in chunks[i] :: x
  }

  /** The index: each name with the last chunk that holds it. */
  function IndexChunks(chunks: Chunks): map<string, nat> {
    map x | x in NamesIn(chunks) :: LastHolding(chunks, x)
  }

  function LastHolding(chunks: Chunks, x: string): (i: nat)
    requires x in NamesIn(chunks)
    ensures i < |chunks| && x in chunks[i]
    ensures forall j :: i < j < |chunks| ==> x !in chunks[j]
  {
    var n := |chunks| - 1;
    if x in chunks[n] then n
    else
      assert NamesIn(chunks[..n]) == NamesIn(chunks) - (set y | y in chunks[n] && y !in NamesIn(chunks[..n]));
      LastHolding(chunks[..n], x)
  }

  // ---- Limits ----

  function ChunkBytes(chunk: Chunk): nat {
    if chunk == [] then 0 else |chunk[0]| + 1 + ChunkBytes(chunk[1..])
  }

  /** canFitInChunk. */
  predicate CanFit(chunk: Chunk, name: string) {
    |chunk| < MAX_COUNT && ChunkBytes(chunk) + |name| + 1 <= MAX_BYTES
  }

  /** chunkByteSize: a running total. */
  method ChunkByteSize(chunk: Chunk) returns (total: nat)
    ensures total == ChunkBytes(chunk)
  {
    total := 0;
    for i := 0 to |chunk|
      invariant total + ChunkBytes(chunk[i..]) == ChunkBytes(chunk)
    {
      assert chunk[i..][1..] == chunk[i + 1..];
      total := total + |chunk[i]| + 1;
    }
  }

  lemma {:induction false} BytesSnoc(chunk: Chunk, x: string)
    ensures ChunkBytes(chunk + [x]) == ChunkBytes(chunk) + |x| + 1
  {
    if chunk == [] {
      assert (chunk + [x])[1..] == [];
    } else {
      assert (chunk + [x])[1..] == chunk[1..] + [x];
      BytesSnoc(chunk[1..], x);
    }
  }

  lemma {:induction false} BytesInsert(x: string, s: Chunk)
    ensures ChunkBytes(Insert(x, s)) == ChunkBytes(s) + |x| + 1
  {
    if s == [] || AtMost(x, s[0]) {
      assert ([x] + s)[1..] == s;
    } else {
      BytesInsert(x, s[1..]);
      assert Insert(x, s)[1..] == Insert(x, s[1..]);
    }
  }

  lemma {:induction false} BytesSort(s: Chunk)
    ensures ChunkBytes(Sort(s)) == ChunkBytes(s)
  {
    if s != [] {
      BytesSort(s[1..]);
      BytesInsert(s[0], Sort(s[1..]));
    }
  }

  // ---- Adding ----

  function FirstFit(chunks: Chunks, name: string): (t: nat)
    ensures t <= |chunks|
    ensures t < |chunks| ==> CanFit(chunks[t], name)
    ensures forall i :: 0 <= i < t ==> !CanFit(chunks[i], name)
  {
    if chunks == [] || CanFit(chunks[0], name) then 0
    else
      var t := 1 + FirstFit(chunks[1..], name);
      assert forall i :: 1 <= i < t ==> chunks[i] == chunks[1..][i - 1];
      t
  }

  function ChunkAt(chunks: Chunks, t: nat): Chunk {
    if t < |chunks| then chunks[t] else []
  }

  /** The zone after a successful write of chunk `t`: an empty chunk is deleted and not inserted again. */
  function WriteChunk(zone: Zone, t: nat, chunk: Chunk): Zone {
    if chunk == [] then zone - {t} else zone[t := Sort(chunk)]
  }

  /** What Add writes when the name is new. */
  function AddTo(zone: Zone, name: string): Zone {
    var chunks := Load(zone);
    var t := FirstFit(chunks, name);
    WriteChunk(zone, t, ChunkAt(chunks, t) + [name])
  }

  // ---- Removing ----

  /** What Remove writes when the name is there. */
  function RemoveFrom(zone: Zone, name: string): Zone
    requires name in NamesIn(Load(zone))
  {
    var chunks := Load(zone);
    var k := LastHolding(chunks, name);
    WriteChunk(zone, k, Except(chunks[k], name))
  }

  function DropAt(chunks: Chunks, k: nat): Chunks
    requires k < |chunks|
  {
    chunks[..k] + chunks[k + 1..]
  }

  // ---- Compacting ----

  /** Names in order, a new chunk whenever the current one cannot take the next name. */
  function Pack(names: seq<string>): Chunks {
    if names == [] then []
    else
      var n := |names| - 1;
      var cs := Pack(names[..n]);
      if cs == [] || !CanFit(cs[|cs| - 1], names[n]) then cs + [[names[n]]]
      else cs[..|cs| - 1] + [cs[|cs| - 1] + [names[n]]]
  }

  /** Chunk 0 is rewritten even when there is nothing to put in it. */
  function Packed(names: seq<string>): Chunks {
    if names == [] then [[]] else Pack(names)
  }

  /** The zone once chunks 0 to i-1 of `cs` are written. */
  function WriteAll(zone: Zone, cs: Chunks, i: nat): Zone
    requires i <= |cs|
  {
    if i == 0 then zone else WriteChunk(WriteAll(zone, cs, i - 1), i - 1, cs[i - 1])
  }

  /** The zone once chunks `from` to `to`-1 are deleted. */
  function DeleteRange(zone: Zone, from: nat, to: nat): Zone {
    map i | i in zone && !(from <= i < to) :: zone[i]
  }

  function CompactTo(zone: Zone, names: seq<string>, oldCount: nat): Zone {
    DeleteRange(WriteAll(zone, Packed(names), |Packed(names)|), |Packed(names)|, oldCount)
  }

  /** The local chunks and index after Add chose a chunk for `name`, and wrote it or rolled back. */
  function AfterAdd(before: Chunks, name: string, written: bool): (Chunks, map<string, nat>) {
    var t := FirstFit(before, name);
    var room := if t < |before| then before else before + [[]];
    if written then (room[t := ChunkAt(before, t) + [name]], IndexChunks(before)[name := t])
    else (room, IndexChunks(before))
  }

  /** The local chunks and index after Remove: an emptied chunk other than 0 is dropped and the rest renumbered. */
  function AfterRemove(before: Chunks, name: string): (Chunks, map<string, nat>)
    requires name in NamesIn(before)
  {
    var k := LastHolding(before, name);
    var rest := Except(before[k], name);
    if rest == [] && k > 0 then (DropAt(before, k), IndexChunks(DropAt(before, k)))
    else (before[k := rest], IndexChunks(before) - {name})
  }

  // ---- The object ----

  datatype WriteReply = Applied | Refused | Lost

  /** The zone's server: queries may fail, and an update may be refused or its reply lost. */
  class Server {
    var zone: Zone

    constructor (zone: Zone)
      ensures this.zone == zone
    {
      this.zone := zone;
    }

    method Query(i: nat) returns (ok: bool, text: Option<string>)
      ensures ok ==> text == if i in zone then Some(JoinSpaces(zone[i])) else None
    {
      ok := *;
      text := if i in zone then Some(JoinSpaces(zone[i])) else None;
    }

    /** One UPDATE: the record set of chunk `i` is deleted and, if there are strings, inserted again. */
    method Update(i: nat, strs: Chunk) returns (reply: WriteReply)
      modifies this
      ensures reply.Refused? ==> zone == old(zone)
      ensures !reply.Refused? ==> zone == if strs == [] then old(zone) - {i} else old(zone)[i := strs]
    {
      reply := *;
      if !reply.Refused? {
        zone := if strs == [] then zone - {i} else zone[i := strs];
      }
    }
  }

  datatype AddResult = TooLong | NotLoaded | Already | Added | NotWritten(reply: WriteReply)

  datatype RemoveResult = Unloaded | Absent | Removed | NotRemoved(reply: WriteReply)

  class HostCatalog {
    const server: Server
    var chunks: Chunks
    var hostnames: map<string, nat>
    var loaded: bool

    constructor (server: Server)
      ensures this.server == server && chunks == [] && hostnames == map[] && !loaded
    {
      this.server := server;
      chunks, hostnames, loaded := [], map[], false;
    }

    /** The local state is what a load of `zone` gives. */
    ghost predicate Reflects(zone: Zone)
      reads this
    {
      loaded && chunks == Load(zone) && hostnames == IndexChunks(Load(zone))
    }

    /** loadLocked: chunk 0, 1, 2, ... until one is missing. */
    method LoadLocked() returns (ok: bool)
      modifies this
      ensures server.zone == old(server.zone)
      ensures ok ==> Reflects(server.zone)
      ensures !ok ==> !loaded
    {
      chunks, hostnames, loaded := [], map[], false;
      var i := 0;
      var more := true;
      while more
        invariant server.zone == old(server.zone)
        invariant !loaded
        invariant i <= |Load(server.zone)|
        invariant chunks == Load(server.zone)[..i] && hostnames == IndexChunks(chunks)
        invariant !more ==> i == |Load(server.zone)|
        decreases |Load(server.zone)| - i, more
      {
        var answered, text := server.Query(i);
        if !answered { return false; }
        if text.None? {
          assert i == |Load(server.zone)|;
          more := false;
        } else {
          var chunk := Fields(text.value);
          assert chunk == Load(server.zone)[i];
          IndexNext(chunks, hostnames, chunk, i);
          chunks := chunks + [chunk];
          hostnames := AddToIndex(hostnames, chunk, i);
          i := i + 1;
        }
      }
      loaded := true;
      return true;
    }

    /** Add. */
    method Add(host: string) returns (result: AddResult)
      modifies this, server
      ensures var name := Normalize(host);
              match result
              case TooLong => |name| > 253 && server.zone == old(server.zone)
              case NotLoaded => server.zone == old(server.zone)
              case Already => name in NamesIn(Load(old(server.zone))) && server.zone == old(server.zone)
              case Added =>
                && |name| <= 253 && name !in NamesIn(Load(old(server.zone)))
                && server.zone == AddTo(old(server.zone), name)
                && Holds(AfterAdd(Load(old(server.zone)), name, true))
              case NotWritten(reply) =>
                && |name| <= 253 && name !in NamesIn(Load(old(server.zone)))
                && server.zone == (if reply.Lost? then AddTo(old(server.zone), name) else old(server.zone))
                && Holds(AfterAdd(Load(old(server.zone)), name, false))
    {
      var name := Normalize(host);
      if |name| > MAX_NAME { return TooLong; }
      var ok := LoadLocked();
      if !ok { return NotLoaded; }
      if name in hostnames { return Already; }
      var reply := WriteNew(name);
      return if reply.Applied? then Added else NotWritten(reply);
    }

    /** The local chunks and index are exactly these. */
    ghost predicate Holds(local: (Chunks, map<string, nat>))
      reads this
    {
      loaded && (chunks, hostnames) == local
    }

    /** The part of Add after the checks: choose a chunk, write it, roll back if that failed. */
    method WriteNew(name: string) returns (reply: WriteReply)
      requires Reflects(server.zone) && name !in hostnames
      modifies this, server
      ensures server.zone == if reply.Refused? then old(server.zone) else AddTo(old(server.zone), name)
      ensures Holds(AfterAdd(Load(old(server.zone)), name, reply.Applied?))
    {
      ghost var before := chunks;
      var t := PlaceName(name, before);
      SortEmpty(chunks[t]);
      reply := server.Update(t, Sort(chunks[t]));
      if !reply.Applied? {
        RollBack(t, name, before);
      }
    }

    method PlaceName(name: string, ghost before: Chunks) returns (t: nat)
      requires loaded && chunks == before && hostnames == IndexChunks(before)
      modifies this`chunks, this`hostnames
      ensures t == FirstFit(before, name) && t < |chunks| && chunks[t] == ChunkAt(before, t) + [name]
      ensures Holds(AfterAdd(before, name, true))
    {
      t := FindSpace(name);
      if t == |chunks| {
        chunks := chunks + [[]];
      }
      chunks := chunks[t := chunks[t] + [name]];
      hostnames := hostnames[name := t];
    }

    method RollBack(t: nat, name: string, ghost before: Chunks)
      requires Holds(AfterAdd(before, name, true)) && t == FirstFit(before, name) && name !in IndexChunks(before)
      modifies this`chunks, this`hostnames
      ensures Holds(AfterAdd(before, name, false))
    {
      hide LastHolding;
      hide CanFit;
      hide NamesIn;
      ghost var room := if t < |before| then before else before + [[]];
      assert chunks[t] == room[t] + [name];
      chunks := chunks[t := chunks[t][..|chunks[t]| - 1]];
      assert chunks == room;
      hostnames := hostnames - {name};
      assert hostnames == IndexChunks(before);
    }

    /** The loop of Add that looks for the first chunk with space. */
    method FindSpace(name: string) returns (t: nat)
      ensures t == FirstFit(chunks, name)
    {
      t := 0;
      while t < |chunks|
        invariant t <= |chunks|
        invariant t + FirstFit(chunks[t..], name) == FirstFit(chunks, name)
      {
        if |chunks[t]| < MAX_COUNT {
          var size := ChunkByteSize(chunks[t]);
          if size + |name| + 1 <= MAX_BYTES { return; }
        }
        assert chunks[t..][1..] == chunks[t + 1..];
        t := t + 1;
      }
    }

    /** Remove. */
    method Remove(host: string) returns (result: RemoveResult)
      modifies this, server
      ensures var name := Normalize(host);
              match result
              case Unloaded => server.zone == old(server.zone)
              case Absent => name !in NamesIn(Load(old(server.zone))) && server.zone == old(server.zone)
              case Removed =>
                && name in NamesIn(Load(old(server.zone)))
                && server.zone == RemoveFrom(old(server.zone), name)
                && Holds(AfterRemove(Load(old(server.zone)), name))
              case NotRemoved(reply) =>
                && name in NamesIn(Load(old(server.zone)))
                && server.zone == (if reply.Lost? then RemoveFrom(old(server.zone), name) else old(server.zone))
                && Reflects(old(server.zone))
    {
      var name := Normalize(host);
      var ok := LoadLocked();
      if !ok { return Unloaded; }
      if name !in hostnames { return Absent; }
      var reply := WriteWithout(name);
      return if reply.Applied? then Removed else NotRemoved(reply);
    }

    /** The part of Remove after the checks: rewrite or delete the chunk, roll back if that failed. */
    method WriteWithout(name: string) returns (reply: WriteReply)
      requires Reflects(server.zone) && name in NamesIn(Load(server.zone))
      modifies this, server
      ensures server.zone == if reply.Refused? then old(server.zone) else RemoveFrom(old(server.zone), name)
      ensures reply.Applied? ==> Holds(AfterRemove(Load(old(server.zone)), name))
      ensures !reply.Applied? ==> Reflects(old(server.zone))
    {
      hide IndexChunks;
      hide Load;
      hide Except;
      hide LastHolding;
      ghost var before := chunks;
      var k, chunk, rest := TakeOut(name, before);
      reply := SendRest(k, rest, name);
      if !reply.Applied? {
        PutBack(k, chunk, name, before);
      } else if rest == [] && k > 0 {
        ReindexAfterDelete(k);
        DropUpdated(before, k, rest);
      }
    }

    method SendRest(k: nat, rest: Chunk, ghost name: string) returns (reply: WriteReply)
      requires name in NamesIn(Load(server.zone)) && k == LastHolding(Load(server.zone), name)
      requires rest == Except(Load(server.zone)[k], name)
      modifies server
      ensures server.zone == if reply.Refused? then old(server.zone) else RemoveFrom(old(server.zone), name)
    {
      SortEmpty(rest);
      reply := server.Update(k, if rest == [] && k > 0 then [] else Sort(rest));
    }

    method TakeOut(name: string, ghost before: Chunks) returns (k: nat, chunk: Chunk, rest: Chunk)
      requires chunks == before && hostnames == IndexChunks(before) && name in NamesIn(before)
      modifies this`chunks, this`hostnames
      ensures k == LastHolding(before, name) && chunk == before[k] && rest == Except(chunk, name)
      ensures chunks == before[k := rest] && hostnames == IndexChunks(before) - {name}
    {
      k := hostnames[name];
      chunk := chunks[k];
      rest := WithoutName(chunk, name);
      chunks := chunks[k := rest];
      hostnames := hostnames - {name};
    }

    method PutBack(k: nat, chunk: Chunk, name: string, ghost before: Chunks)
      requires name in NamesIn(before) && k == LastHolding(before, name) && chunk == before[k]
      requires |chunks| == |before| && chunks[k := chunk] == before && hostnames == IndexChunks(before) - {name}
      modifies this`chunks, this`hostnames
      ensures chunks == before && hostnames == IndexChunks(before)
    {
      chunks := chunks[k := chunk];
      hostnames := hostnames[name := k];
      IndexRestored(before, name);
    }

    method WithoutName(chunk: Chunk, name: string) returns (rest: Chunk)
      ensures rest == Except(chunk, name)
    {
      rest := [];
      for i := 0 to |chunk|
        invariant rest == Except(chunk[..i], name)
      {
        assert chunk[..i + 1][..i] == chunk[..i];
        if chunk[i] != name {
          rest := rest + [chunk[i]];
        }
      }
      assert chunk[..|chunk|] == chunk;
    }

    /** reindexAfterDelete: local only, the DNS records keep their numbers. */
    method ReindexAfterDelete(k: nat)
      requires k < |chunks|
      modifies this`chunks, this`hostnames
      ensures chunks == DropAt(old(chunks), k)
      ensures hostnames == IndexChunks(chunks)
    {
      chunks := chunks[..k] + chunks[k + 1..];
      hostnames := map[];
      for i := 0 to |chunks|
        invariant chunks == DropAt(old(chunks), k)
        invariant hostnames == IndexChunks(chunks[..i])
      {
        IndexNext(chunks[..i], hostnames, chunks[i], i);
        assert chunks[..i] + [chunks[i]] == chunks[..i + 1];
        hostnames := AddToIndex(hostnames, chunks[i], i);
      }
      assert chunks[..|chunks|] == chunks;
    }

    /** The sorted names of the index, collected in whatever order the map yields them. */
    method SortedNames() returns (names: seq<string>)
      ensures Sorted(names)
      ensures multiset(names) == multiset(hostnames.Keys)
    {
      names := [];
      var left := hostnames.Keys;
      while left != {}
        invariant left <= hostnames.Keys
        invariant multiset(names) + multiset(left) == multiset(hostnames.Keys)
        decreases |left|
      {
        var x :| x in left;
        left := left - {x};
        names := names + [x];
      }
      SortSorted(names);
      names := Sort(names);
    }

    /** The packing loop of Compact. */
    method PackNames(names: seq<string>) returns (cs: Chunks)
      ensures cs == Packed(names)
    {
      hide CanFit;
      hide Pack;
      cs := [];
      var current: Chunk := [];
      PackNothing();
      assert names[..0] == [];
      for i := 0 to |names|
        invariant current == [] ==> i == 0 && cs == []
        invariant (if current == [] then cs else cs + [current]) == Pack(names[..i])
      {
        assert names[..i + 1][..i] == names[..i] && names[..i + 1][i] == names[i];
        PackNext(names[..i + 1], if current == [] then cs else cs + [current], cs, current);
        if |current| > 0 && !CanFit(current, names[i]) {
          cs := cs + [current];
          current := [];
        }
        assert current == [] ==> current + [names[i]] == [names[i]];
        current := current + [names[i]];
      }
      assert names[..|names|] == names;
      if |current| > 0 {
        cs := cs + [current];
      }
      if |cs| == 0 {
        cs := [[]];
      }
    }

    /**
     * Compact.  `clean` tells whether every update was applied and acknowledged, `reached` how many of
     * the new chunks were written, and `gone` which of the old ones were deleted.
     */
    method Compact()
      returns (ok: bool, ghost clean: bool, ghost names: seq<string>, ghost oldCount: nat, ghost reached: nat, ghost gone: set<nat>)
      modifies this, server
      ensures old(loaded) ==>
                Sorted(names) && multiset(names) == multiset(old(hostnames).Keys) && oldCount == |old(chunks)|
      ensures ok && !old(loaded) ==>
                && Sorted(names) && multiset(names) == multiset(NamesIn(Load(old(server.zone))))
                && oldCount == |Load(old(server.zone))|
      ensures ok ==> Holds((Packed(names), IndexChunks(Packed(names))))
      ensures !ok && old(loaded) ==> Holds((Packed(names), old(hostnames)))
      ensures reached <= |Packed(names)| && (ok ==> reached == |Packed(names)|)
      ensures server.zone == WriteAll(old(server.zone), Packed(names), reached) - gone
      ensures forall i :: i in gone ==> ok && |Packed(names)| <= i < oldCount
      ensures ok && clean ==> server.zone == CompactTo(old(server.zone), names, oldCount)
    {
      hide Packed;
      hide Load;
      hide NamesIn;
      hide Sorted;
      ok, clean, names, oldCount, reached, gone := true, true, [], 0, 0, {};
      if !loaded {
        ok := LoadLocked();
        if !ok {
          WriteNone(server.zone, Packed(names));
          return;
        }
      }
      ok, clean, names, oldCount, reached, gone := CompactLoaded();
    }

    /** The rest of Compact once the catalog is loaded. */
    method CompactLoaded()
      returns (ok: bool, ghost clean: bool, ghost names: seq<string>, ghost oldCount: nat, ghost reached: nat, ghost gone: set<nat>)
      requires loaded
      modifies this, server
      ensures Sorted(names) && multiset(names) == multiset(old(hostnames).Keys) && oldCount == |old(chunks)|
      ensures Holds((Packed(names), if ok then IndexChunks(Packed(names)) else old(hostnames)))
      ensures reached <= |Packed(names)| && (ok ==> reached == |Packed(names)|)
      ensures server.zone == WriteAll(old(server.zone), Packed(names), reached) - gone
      ensures forall i :: i in gone ==> ok && |Packed(names)| <= i < oldCount
      ensures ok && clean ==> server.zone == CompactTo(old(server.zone), names, oldCount)
    {
      hide Packed;
      hide WriteAll;
      hide IndexChunks;
      hide Sorted;
      hide DeleteRange;
      clean, gone := true, {};
      var all := SortedNames();
      names := all;
      var count := |chunks|;
      oldCount := count;
      var cs := PackNames(all);
      chunks := cs;
      ok, reached := WriteChunks(cs);
      if !ok {
        assert server.zone - {} == server.zone;
        return;
      }
      clean, gone := DeleteChunks(|cs|, count);
      hostnames := IndexPacked(cs);
    }

    /** The writing loop of Compact, which stops at the first failure. */
    method WriteChunks(cs: Chunks) returns (ok: bool, ghost reached: nat)
      modifies server
      ensures reached <= |cs| && (ok ==> reached == |cs|)
      ensures server.zone == WriteAll(old(server.zone), cs, reached)
    {
      for i := 0 to |cs|
        invariant server.zone == WriteAll(old(server.zone), cs, i)
      {
        SortEmpty(cs[i]);
        var reply := server.Update(i, Sort(cs[i]));
        if !reply.Applied? { return false, if reply.Lost? then i + 1 else i; }
      }
      return true, |cs|;
    }

    /** The deleting loop of Compact, which carries on after a failure. */
    method DeleteChunks(from: nat, to: nat) returns (ghost clean: bool, ghost gone: set<nat>)
      modifies server
      ensures server.zone == old(server.zone) - gone
      ensures forall i :: i in gone ==> from <= i < to
      ensures clean ==> server.zone == DeleteRange(old(server.zone), from, to)
    {
      clean, gone := true, {};
      var i := from;
      if to <= from {
        assert DeleteRange(server.zone, from, to) == server.zone;
        return;
      }
      assert DeleteRange(server.zone, from, from) == server.zone;
      while i < to
        invariant from <= i <= to
        invariant server.zone == old(server.zone) - gone
        invariant forall k :: k in gone ==> from <= k < i
        invariant clean ==> server.zone == DeleteRange(old(server.zone), from, i)
      {
        var reply := server.Update(i, []);
        clean := clean && reply.Applied?;
        gone := if reply.Refused? then gone else gone + {i};
        i := i + 1;
      }
    }

    method IndexPacked(cs: Chunks) returns (index: map<string, nat>)
      ensures index == IndexChunks(cs)
    {
      index := map[];
      for i := 0 to |cs|
        invariant index == IndexChunks(cs[..i])
      {
        IndexNext(cs[..i], index, cs[i], i);
        assert cs[..i] + [cs[i]] == cs[..i + 1];
        index := AddToIndex(index, cs[i], i);
      }
      assert cs[..|cs|] == cs;
    }
  }

  lemma WriteNone(zone: Zone, cs: Chunks)
    ensures WriteAll(zone, cs, 0) == zone && zone - {} == zone
  {
  }

  /** The inner loops that point every name of a chunk at it. */
  function AddToIndex(index: map<string, nat>, chunk: Chunk, i: nat): map<string, nat> {
    index + map x | x in chunk :: i
  }

  lemma IndexNext(chunks: Chunks, index: map<string, nat>, chunk: Chunk, i: nat)
    requires index == IndexChunks(chunks) && i == |chunks|
    ensures AddToIndex(index, chunk, i) == IndexChunks(chunks + [chunk])
  {
    var all := chunks + [chunk];
    assert all[..i] == chunks;
    forall x ensures x in NamesIn(all) <==> x in NamesIn(chunks) || x in chunk {
      if x in NamesIn(chunks) {
        var j :| 0 <= j < |chunks| && x in chunks[j];
        assert x in all[j];
      }
      if x in chunk { assert x in all[i]; }
    }
  }

  lemma IndexRestored(chunks: Chunks, name: string)
    requires name in NamesIn(chunks)
    ensures (IndexChunks(chunks) - {name})[name := LastHolding(chunks, name)] == IndexChunks(chunks)
  {
  }

  lemma DropUpdated(chunks: Chunks, k: nat, chunk: Chunk)
    requires k < |chunks|
    ensures DropAt(chunks[k := chunk], k) == DropAt(chunks, k)
  {
  }

  lemma PackNothing()
    ensures Pack([]) == []
  {
  }

  lemma PackNext(names: seq<string>, before: Chunks, cs: Chunks, current: Chunk)
    requires names != [] && before == Pack(names[..|names| - 1])
    requires current == [] ==> before == [] && cs == []
    requires current != [] ==> before == cs + [current]
    ensures var x := names[|names| - 1];
            Pack(names) == if current == [] || !CanFit(current, x) then before + [[x]] else cs + [current + [x]]
  {
  }

  lemma SortEmpty(s: Chunk)
    ensures Sort(s) == [] <==> s == []
  {
  }
}
