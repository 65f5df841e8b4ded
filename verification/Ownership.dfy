/** The text of ownership TXT records: printing, parsing, and the instance a value belongs to. */
module Ownership {
  import opened Strings
  import opened Wrappers

  type Meta = map<string, string>

  const HERITAGE := "heritage=dnsweaver"
  const RESERVED: set<string> := {"heritage", "instance"}

  /** What parsing a TXT value finds. */
  datatype Parsed = Parsed(owned: bool, instance: string, meta: Meta)

  const NOT_OWNED := Parsed(false, "", map[])

  // ---- Printing ----

  function Item(key: string, value: string): string {
    key + "=" + value
  }

  function PairItems(keys: seq<string>, meta: Meta): (items: seq<string>)
    requires forall k :: k in keys ==> k in meta
    ensures |items| == |keys|
    ensures forall i :: 0 <= i < |keys| ==> items[i] == Item(keys[i], meta[keys[i]])
  {
    seq(|keys|, i requires 0 <= i < |keys| => Item(keys[i], meta[keys[i]]))
  }

  function InstanceItems(id: string): seq<string> {
    if id == "" then [] else [Item("instance", id)]
  }

  /** The items with commas between them. */
  function Joined(items: seq<string>): string {
    if items == [] then ""
    else if |items| == 1 then items[0]
    else items[0] + [','] + Joined(items[1..])
  }

  /** Every item preceded by a comma. */
  function Commas(items: seq<string>): string {
    if items == [] then "" else [','] + Joined(items)
  }

  function Render(id: string, keys: seq<string>, meta: Meta): string
    requires forall k :: k in keys ==> k in meta
  {
    HERITAGE + Commas(InstanceItems(id) + PairItems(keys, meta))
  }

  /** `keys` lists the printed keys of `meta`, each once, in some order. */
  ghost predicate Lists(keys: seq<string>, meta: Meta) {
    Distinct(keys) && forall k :: k in keys <==> k in meta.Keys - RESERVED
  }

  ghost function Listing(s: set<string>): (keys: seq<string>)
    ensures multiset(keys) == multiset(s)
  {
    if s == {} then []
    else
      var x :| x in s;
      assert s == s - {x} + {x};
      [x] + Listing(s - {x})
  }

  ghost function SortedKeys(meta: Meta): (keys: seq<string>)
    ensures multiset(keys) == multiset(meta.Keys - RESERVED)
  {
    Sort(Listing(meta.Keys - RESERVED))
  }

  lemma CountTwice(keys: seq<string>, i: nat, j: nat)
    requires i < j < |keys| && keys[i] == keys[j]
    ensures multiset(keys)[keys[i]] >= 2
  {
    assert keys == keys[..j] + keys[j..];
    assert keys[i] in keys[..j] && keys[j..][0] == keys[i];
    assert keys[i] in keys[j..];
  }

  lemma MultisetOfSet(keys: seq<string>, s: set<string>)
    requires multiset(keys) == multiset(s)
    ensures Distinct(keys)
    ensures forall k :: k in keys <==> k in s
  {
    forall i, j | 0 <= i < j < |keys| ensures keys[i] != keys[j] {
      if keys[i] == keys[j] {
        CountTwice(keys, i, j);
        assert false;
      }
    }
    forall k ensures k in keys <==> k in s {
      assert k in keys <==> k in multiset(keys);
    }
  }

  lemma SortedKeysList(meta: Meta)
    ensures Lists(SortedKeys(meta), meta)
    ensures Sorted(SortedKeys(meta))
  {
    MultisetOfSet(SortedKeys(meta), meta.Keys - RESERVED);
    SortSorted(Listing(meta.Keys - RESERVED));
  }

  /** The value printed for an instance and its metadata. */
  ghost function MakeValue(id: string, meta: Meta): string {
    SortedKeysList(meta);
    Render(id, SortedKeys(meta), meta)
  }

  lemma {:induction false} JoinedSnoc(items: seq<string>, x: string)
    requires items != []
    ensures Joined(items + [x]) == Joined(items) + [','] + x
  {
    var all := items + [x];
    assert all[1..] == items[1..] + [x];
    if |items| == 1 {
      assert all[1..] == [x];
    } else {
      JoinedSnoc(items[1..], x);
      assert items[0] + [','] + (Joined(items[1..]) + [','] + x) == Joined(items) + [','] + x;
    }
  }

  lemma CommasSnoc(items: seq<string>, x: string)
    ensures Commas(items + [x]) == Commas(items) + [','] + x
  {
    if items != [] {
      JoinedSnoc(items, x);
      assert [','] + (Joined(items) + [','] + x) == [','] + Joined(items) + [','] + x;
    }
  }

  /** The keys to print, sorted. */
  method CollectKeys(meta: Meta) returns (keys: seq<string>)
    ensures keys == SortedKeys(meta)
  {
    var left := meta.Keys - RESERVED;
    keys := [];
    while left != {}
      invariant left <= meta.Keys - RESERVED
      invariant multiset(keys) + multiset(left) == multiset(meta.Keys - RESERVED)
      decreases |left|
    {
      var k :| k in left;
      left := left - {k};
      keys := keys + [k];
    }
    SortSorted(keys);
    keys := Sort(keys);
    assert multiset(keys) == multiset(meta.Keys - RESERVED);
    SortedAfterSort(keys, meta);
  }

  lemma Flattened(a: string, b: string, k: string, v: string)
    ensures a + (b + [','] + Item(k, v)) == a + b + "," + k + "=" + v
  {
  }

  lemma AnotherPair(id: string, keys: seq<string>, meta: Meta, i: nat)
    requires forall k :: k in keys ==> k in meta
    requires i < |keys|
    ensures forall k :: k in keys[..i] ==> k in meta
    ensures forall k :: k in keys[..i + 1] ==> k in meta
    ensures Render(id, keys[..i + 1], meta)
         == Render(id, keys[..i], meta) + "," + keys[i] + "=" + meta[keys[i]]
  {
    var k := keys[i];
    var items := InstanceItems(id) + PairItems(keys[..i], meta);
    CommasSnoc(items, Item(k, meta[k]));
    assert PairItems(keys[..i + 1], meta) == PairItems(keys[..i], meta) + [Item(k, meta[k])];
    assert InstanceItems(id) + PairItems(keys[..i + 1], meta) == items + [Item(k, meta[k])];
    Flattened(HERITAGE, Commas(items), k, meta[k]);
  }

  lemma NoPairs(id: string, meta: Meta)
    ensures id == "" ==> Render(id, [], meta) == HERITAGE
    ensures id != "" ==> Render(id, [], meta) == HERITAGE + ",instance=" + id
  {
  }

  /** MakeOwnershipValue: collects the keys in whatever order the map yields them, sorts, prints. */
  method MakeOwnershipValue(id: string, meta: Meta) returns (value: string)
    ensures value == MakeValue(id, meta)
  {
    value := HERITAGE;
    if id != "" {
      value := value + ",instance=" + id;
    }
    NoPairs(id, meta);
    SortedKeysList(meta);
    var keys := CollectKeys(meta);
    value := WritePairs(id, keys, meta, value);
  }

  method WritePairs(id: string, keys: seq<string>, meta: Meta, start: string) returns (value: string)
    requires forall k :: k in keys ==> k in meta
    requires start == Render(id, [], meta)
    ensures value == Render(id, keys, meta)
  {
    value := start;
    assert keys[..0] == [];
    var i := 0;
    while i < |keys|
      invariant 0 <= i <= |keys|
      invariant forall k :: k in keys[..i] ==> k in meta
      invariant value == Render(id, keys[..i], meta)
    {
      AnotherPair(id, keys, meta, i);
      value := value + "," + keys[i] + "=" + meta[keys[i]];
      i := i + 1;
    }
    assert keys[..i] == keys;
  }

  /** Every pair behind a comma. */
  function Flat(keys: seq<string>, meta: Meta): string
    requires forall k :: k in keys ==> k in meta
    decreases |keys|
  {
    if keys == [] then ""
    else
      var n := |keys| - 1;
      assert keys[n] in keys && forall k :: k in keys[..n] ==> k in keys;
      Flat(keys[..n], meta) + "," + keys[n] + "=" + meta[keys[n]]
  }

  lemma {:induction false} RenderText(id: string, keys: seq<string>, meta: Meta)
    requires forall k :: k in keys ==> k in meta
    ensures Render(id, keys, meta) == "heritage=dnsweaver" + (if id == "" then "" else ",instance=" + id) + Flat(keys, meta)
    decreases |keys|
  {
    hide Render;
    if keys == [] {
      NoPairs(id, meta);
    } else {
      var n := |keys| - 1;
      assert forall k :: k in keys[..n] ==> k in keys;
      RenderText(id, keys[..n], meta);
      AnotherPair(id, keys, meta, n);
      assert keys[..n + 1] == keys;
      AfterFlat("heritage=dnsweaver" + (if id == "" then "" else ",instance=" + id), Flat(keys[..n], meta), keys[n], meta[keys[n]]);
    }
  }

  lemma AfterFlat(start: string, flat: string, k: string, v: string)
    ensures start + (flat + "," + k + "=" + v) == start + flat + "," + k + "=" + v
  {
  }

  /** The text of a value: the pairs of all keys but the two reserved ones, in the order of their bytes. */
  lemma ValueText(id: string, meta: Meta)
    ensures forall k :: k in SortedKeys(meta) <==> k in meta && k != "heritage" && k != "instance"
    ensures Distinct(SortedKeys(meta)) && Sorted(SortedKeys(meta))
    ensures MakeValue(id, meta)
         == "heritage=dnsweaver" + (if id == "" then "" else ",instance=" + id) + Flat(SortedKeys(meta), meta)
  {
    hide Render;
    SortedKeysList(meta);
    RenderText(id, SortedKeys(meta), meta);
  }

  lemma SortedAfterSort(keys: seq<string>, meta: Meta)
    requires multiset(keys) == multiset(meta.Keys - RESERVED)
    requires Sorted(keys)
    ensures keys == SortedKeys(meta)
  {
    SortedKeysList(meta);
    SortedUnique(keys, SortedKeys(meta));
  }

  // ---- Parsing ----

  function ParsePart(part: string, acc: Parsed): Parsed {
    var k := IndexOf(part, '=');
    if k == |part| then acc
    else if part[..k] == "instance" then acc.(instance := part[k + 1..])
    else if part[..k] == "heritage" then acc
    else acc.(meta := acc.meta[part[..k] := part[k + 1..]])
  }

  function ParseParts(parts: seq<string>, acc: Parsed): Parsed {
    if parts == [] then acc else ParseParts(parts[1..], ParsePart(parts[0], acc))
  }

  function ParseValue(value: string): Parsed {
    if !HasPrefix(value, HERITAGE) then NOT_OWNED
    else
      var rest := value[|HERITAGE|..];
      if rest == "" then Parsed(true, "", map[])
      else if !HasPrefix(rest, ",") then NOT_OWNED
      else ParseParts(Split(rest[1..], ','), Parsed(true, "", map[]))
  }

  /** ParseOwnershipValue. */
  method ParseOwnershipValue(value: string) returns (owned: bool, instance: string, meta: Meta)
    ensures Parsed(owned, instance, meta) == ParseValue(value)
  {
    owned, instance, meta := false, "", map[];
    if !HasPrefix(value, HERITAGE) { return; }
    var rest := value[|HERITAGE|..];
    if rest == "" { return true, "", map[]; }
    if !HasPrefix(rest, ",") { return; }
    owned := true;
    var parts := Split(rest[1..], ',');
    var i := 0;
    while i < |parts|
      invariant 0 <= i <= |parts|
      invariant owned
      invariant ParseParts(parts[i..], Parsed(true, instance, meta)) == ParseValue(value)
    {
      var part := parts[i];
      var k := IndexOf(part, '=');
      assert parts[i..][1..] == parts[i + 1..];
      if k < |part| {
        if part[..k] == "instance" {
          instance := part[k + 1..];
        } else if part[..k] == "heritage" {
        } else {
          meta := meta[part[..k] := part[k + 1..]];
        }
      }
      i := i + 1;
    }
  }

  predicate MatchesOwnership(value: string, id: string) {
    var p := ParseValue(value);
    p.owned && p.instance == id
  }

  // ---- The codec laws ----

  /** Nothing printed can be mistaken for a separator. */
  predicate Safe(id: string, meta: Meta) {
    && ',' !in id
    && forall k :: k in meta.Keys - RESERVED ==> ',' !in k && '=' !in k && ',' !in meta[k]
  }

  ghost predicate NoCommas(items: seq<string>) {
    forall i :: 0 <= i < |items| ==> ',' !in items[i]
  }

  lemma {:induction false} SplitJoined(items: seq<string>)
    requires items != [] && NoCommas(items)
    ensures Split(Joined(items), ',') == items
  {
    if |items| == 1 {
      SplitWhole(items[0], ',');
    } else {
      SplitJoined(items[1..]);
      SplitAppend(items[0], ',', Joined(items[1..]));
    }
  }

  lemma SplitCommas(items: seq<string>)
    requires items != [] && NoCommas(items)
    ensures HasPrefix(Commas(items), ",")
    ensures Split(Commas(items)[1..], ',') == items
  {
    SplitJoined(items);
    assert Commas(items)[1..] == Joined(items);
  }

  lemma ParseRendered(items: seq<string>)
    requires items != [] && NoCommas(items)
    ensures ParseValue(HERITAGE + Commas(items)) == ParseParts(items, Parsed(true, "", map[]))
  {
    SplitCommas(items);
    assert (HERITAGE + Commas(items))[|HERITAGE|..] == Commas(items);
  }

  lemma ParseItem(key: string, value: string, acc: Parsed)
    requires '=' !in key
    ensures ParsePart(Item(key, value), acc) ==
            if key == "instance" then acc.(instance := value)
            else if key == "heritage" then acc
            else acc.(meta := acc.meta[key := value])
  {
    assert Item(key, value) == key + ['='] + value;
    IndexOfAppend(key, '=', value);
    assert Item(key, value)[..|key|] == key && Item(key, value)[|key| + 1..] == value;
  }

  ghost function Overlay(m: Meta, keys: seq<string>, meta: Meta): Meta
    requires forall k :: k in keys ==> k in meta
    decreases |keys|
  {
    if keys == [] then m
    else
      assert keys[0] in keys;
      Overlay(m[keys[0] := meta[keys[0]]], keys[1..], meta)
  }

  lemma {:induction false} OverlayLookup(m: Meta, keys: seq<string>, meta: Meta, k: string)
    requires forall k :: k in keys ==> k in meta
    ensures k in Overlay(m, keys, meta) <==> k in m || k in keys
    ensures k in keys ==> Overlay(m, keys, meta)[k] == meta[k]
    ensures k in m && k !in keys ==> Overlay(m, keys, meta)[k] == m[k]
    decreases |keys|
  {
    if keys != [] {
      OverlayLookup(m[keys[0] := meta[keys[0]]], keys[1..], meta, k);
      assert keys == [keys[0]] + keys[1..];
    }
  }

  lemma OverlayAll(keys: seq<string>, meta: Meta)
    requires Lists(keys, meta)
    ensures Overlay(map[], keys, meta) == meta - RESERVED
  {
    var m := Overlay(map[], keys, meta);
    forall k ensures k in m <==> k in meta - RESERVED { OverlayLookup(map[], keys, meta, k); }
    forall k | k in m ensures m[k] == (meta - RESERVED)[k] { OverlayLookup(map[], keys, meta, k); }
  }

  lemma {:induction false} ParsePairs(keys: seq<string>, meta: Meta, acc: Parsed)
    requires forall k :: k in keys ==> k in meta && k !in RESERVED && '=' !in k
    ensures ParseParts(PairItems(keys, meta), acc) == acc.(meta := Overlay(acc.meta, keys, meta))
    decreases |keys|
  {
    if keys != [] {
      var k := keys[0];
      assert PairItems(keys, meta)[1..] == PairItems(keys[1..], meta);
      assert k in keys;
      ParseItem(k, meta[k], acc);
      ParsePairs(keys[1..], meta, acc.(meta := acc.meta[k := meta[k]]));
    }
  }

  lemma ParseItems(id: string, keys: seq<string>, meta: Meta)
    requires forall k :: k in keys ==> k in meta && k !in RESERVED && '=' !in k
    ensures ParseParts(InstanceItems(id) + PairItems(keys, meta), Parsed(true, "", map[]))
         == Parsed(true, id, Overlay(map[], keys, meta))
  {
    var items := InstanceItems(id) + PairItems(keys, meta);
    ParsePairs(keys, meta, Parsed(true, id, map[]));
    if id == "" {
      assert items == PairItems(keys, meta);
    } else {
      ParseItem("instance", id, Parsed(true, "", map[]));
      assert items[0] == Item("instance", id) && items[1..] == PairItems(keys, meta);
    }
  }

  lemma ItemsCommaFree(id: string, keys: seq<string>, meta: Meta)
    requires Lists(keys, meta) && Safe(id, meta)
    ensures NoCommas(InstanceItems(id) + PairItems(keys, meta))
  {
  }

  /** Whatever order the map is listed in, parsing a safely printed value gives back what was printed. */
  lemma RenderRoundTrip(id: string, keys: seq<string>, meta: Meta)
    requires Lists(keys, meta) && Safe(id, meta)
    ensures ParseValue(Render(id, keys, meta)) == Parsed(true, id, meta - RESERVED)
  {
    var items := InstanceItems(id) + PairItems(keys, meta);
    ItemsCommaFree(id, keys, meta);
    ParseItems(id, keys, meta);
    OverlayAll(keys, meta);
    if items != [] {
      ParseRendered(items);
    }
  }

  ghost predicate CommaFree(p: Parsed) {
    && ',' !in p.instance
    && forall k :: k in p.meta ==> ',' !in k && '=' !in k && ',' !in p.meta[k] && k !in RESERVED
  }

  lemma {:induction false} ParsePartsSafe(parts: seq<string>, acc: Parsed)
    requires forall p :: p in parts ==> ',' !in p
    requires CommaFree(acc)
    ensures CommaFree(ParseParts(parts, acc))
    decreases |parts|
  {
    if parts != [] {
      assert parts[0] in parts && forall p :: p in parts[1..] ==> p in parts;
      ParsePartsSafe(parts[1..], ParsePart(parts[0], acc));
    }
  }

  /** What a value parses to never contains a separator. */
  lemma ParsedIsSafe(value: string)
    ensures CommaFree(ParseValue(value))
  {
    if HasPrefix(value, HERITAGE) && HasPrefix(value[|HERITAGE|..], ",") {
      ParsePartsSafe(Split(value[|HERITAGE|..][1..], ','), Parsed(true, "", map[]));
    }
  }

  /** The codec is lossless on an ID and metadata exactly when they are safe. */
  lemma RoundTripExactlyWhenSafe(id: string, meta: Meta)
    ensures ParseValue(MakeValue(id, meta)) == Parsed(true, id, meta - RESERVED) <==> Safe(id, meta)
  {
    SortedKeysList(meta);
    if Safe(id, meta) {
      RenderRoundTrip(id, SortedKeys(meta), meta);
    }
    ParsedIsSafe(MakeValue(id, meta));
    if ParseValue(MakeValue(id, meta)) == Parsed(true, id, meta - RESERVED) {
      forall k | k in meta.Keys - RESERVED ensures ',' !in k && '=' !in k && ',' !in meta[k] {
        assert k in meta - RESERVED;
      }
    }
  }

  // ---- The instance a printed value belongs to ----

  const CLAIM := "instance="

  /** The comma-separated pieces of the printed pairs. */
  ghost function Pieces(meta: Meta): seq<string> {
    SortedKeysList(meta);
    Split(Joined(PairItems(SortedKeys(meta), meta)), ',')
  }

  /** The ID in the last piece that gives one. */
  function LastClaim(pieces: seq<string>): Option<string> {
    if pieces == [] then None
    else
      var later := LastClaim(pieces[1..]);
      if later.Some? then later
      else if HasPrefix(pieces[0], CLAIM) then Some(pieces[0][|CLAIM|..])
      else None
  }

  lemma {:induction false} ClaimsExactly(pieces: seq<string>)
    ensures LastClaim(pieces).Some? <==> exists p :: p in pieces && HasPrefix(p, CLAIM)
    decreases |pieces|
  {
    hide HasPrefix;
    if pieces != [] {
      ClaimsExactly(pieces[1..]);
      assert forall p :: p in pieces <==> p == pieces[0] || p in pieces[1..];
    }
  }

  lemma ClaimPart(part: string, acc: Parsed)
    ensures ParsePart(part, acc).owned == acc.owned
    ensures ParsePart(part, acc).instance == if HasPrefix(part, CLAIM) then part[|CLAIM|..] else acc.instance
  {
    var k := IndexOf(part, '=');
    if HasPrefix(part, CLAIM) {
      IndexOfAppend("instance", '=', part[|CLAIM|..]);
      assert part == "instance" + ['='] + part[|CLAIM|..];
    }
  }

  lemma {:induction false} PartsOwner(pieces: seq<string>, acc: Parsed)
    ensures ParseParts(pieces, acc).owned == acc.owned
    ensures ParseParts(pieces, acc).instance == LastClaim(pieces).Or(acc.instance)
    decreases |pieces|
  {
    hide ParsePart;
    hide HasPrefix;
    if pieces != [] {
      ClaimPart(pieces[0], acc);
      PartsOwner(pieces[1..], ParsePart(pieces[0], acc));
    }
  }

  lemma SplitFirst(first: string, items: seq<string>)
    requires ',' !in first
    ensures Split(Joined([first] + items), ',') == [first] + if items == [] then [] else Split(Joined(items), ',')
  {
    var all := [first] + items;
    if items == [] {
      SplitWhole(first, ',');
    } else {
      assert all[1..] == items;
      SplitAppend(first, ',', Joined(items));
    }
  }

  lemma CommaFreeItem(key: string, value: string)
    requires ',' !in key && ',' !in value
    ensures ',' !in Item(key, value)
  {
  }

  lemma NoPieces(acc: Parsed)
    ensures ParseParts(Split(Joined([]), ','), acc) == acc && ParseParts([], acc) == acc
  {
    assert Split("", ',') == [""];
  }

  /** Parsing reads the ID before the pairs, and then piece by piece what the pairs were printed as. */
  lemma ParsePieces(id: string, meta: Meta)
    requires ',' !in id
    ensures ParseValue(MakeValue(id, meta)) == ParseParts(Pieces(meta), Parsed(true, id, map[]))
  {
    hide ParseParts;
    hide ParsePart;
    hide ParseValue;
    hide Split;
    hide Joined;
    hide Commas;
    hide Lists;
    hide SortedKeys;
    hide Item;
    SortedKeysList(meta);
    var pairs, start := PairItems(SortedKeys(meta), meta), Parsed(true, "", map[]);
    var first := Item("instance", id);
    ParseText(InstanceItems(id) + pairs);
    if id == "" {
      assert [] + pairs == pairs;
    } else {
      CommaFreeItem("instance", id);
      SplitFirst(first, pairs);
      ParseItem("instance", id, start);
      PartsStep(first, if pairs == [] then [] else Pieces(meta), start);
      NoPieces(start.(instance := id));
    }
  }

  lemma ParseText(items: seq<string>)
    ensures ParseValue(HERITAGE + Commas(items)) == ParseParts(Split(Joined(items), ','), Parsed(true, "", map[]))
  {
    var value := HERITAGE + Commas(items);
    assert value[|HERITAGE|..] == Commas(items);
    if items != [] {
      assert Commas(items)[1..] == Joined(items);
    }
  }

  lemma PartsStep(first: string, rest: seq<string>, acc: Parsed)
    ensures ParseParts([first] + rest, acc) == ParseParts(rest, ParsePart(first, acc))
  {
    assert ([first] + rest)[1..] == rest;
  }

  /** What any text that is found in a TXT record belongs to, whoever wrote it. */
  lemma MatchesExactly(value: string, id: string)
    ensures MatchesOwnership(value, id) <==>
              || (value == "heritage=dnsweaver" && id == "")
              || (exists rest :: value == "heritage=dnsweaver," + rest && id == LastClaim(Split(rest, ',')).Or(""))
  {
    hide ParseParts;
    hide LastClaim;
    hide Split;
    if HasPrefix(value, HERITAGE) {
      var tail := value[|HERITAGE|..];
      assert value == HERITAGE + tail;
      if HasPrefix(tail, ",") {
        assert value == "heritage=dnsweaver," + tail[1..];
        PartsOwner(Split(tail[1..], ','), Parsed(true, "", map[]));
      }
    }
    forall rest: string | value == "heritage=dnsweaver," + rest
      ensures HasPrefix(value, HERITAGE) && HasPrefix(value[|HERITAGE|..], ",") && value[|HERITAGE|..][1..] == rest
    {
      assert value[|HERITAGE|..] == "," + rest;
    }
  }

  /** A value belongs to the ID of the last piece that gives one, and to the printed ID when none does. */
  lemma MatchesOneInstance(id: string, meta: Meta, other: string)
    requires ',' !in id
    ensures MatchesOwnership(MakeValue(id, meta), other) <==> other == LastClaim(Pieces(meta)).Or(id)
  {
    hide ParseParts;
    hide LastClaim;
    ParsePieces(id, meta);
    PartsOwner(Pieces(meta), Parsed(true, id, map[]));
  }

  /** No piece of the pairs gives another ID than the printed one, which has no comma. */
  ghost predicate KeepsOwner(id: string, meta: Meta) {
    ',' !in id && LastClaim(Pieces(meta)).Or(id) == id
  }

  lemma KeptExactlyWhen(id: string, meta: Meta)
    ensures MatchesOwnership(MakeValue(id, meta), id) <==> KeepsOwner(id, meta)
  {
    ParsedIsSafe(MakeValue(id, meta));
    if ',' !in id { MatchesOneInstance(id, meta, id); }
  }

  /** Metadata keeps every comma-free ID exactly when no piece of its printed pairs starts with "instance=". */
  lemma EveryOwnerKeptExactlyWhen(meta: Meta)
    ensures (forall id :: ',' !in id ==> MatchesOwnership(MakeValue(id, meta), id))
       <==> forall p :: p in Pieces(meta) ==> !HasPrefix(p, CLAIM)
  {
    hide MatchesOwnership;
    hide HasPrefix;
    hide LastClaim;
    hide MakeValue;
    hide Pieces;
    ClaimsExactly(Pieces(meta));
    forall id | ',' !in id
      ensures MatchesOwnership(MakeValue(id, meta), id) <==> id == LastClaim(Pieces(meta)).Or(id)
    {
      MatchesOneInstance(id, meta, id);
    }
    if LastClaim(Pieces(meta)).Some? {
      var other := if LastClaim(Pieces(meta)).value == "" then "x" else "";
      assert ',' !in other;
    }
  }

  lemma SafeKeepsOwner(id: string, meta: Meta)
    requires Safe(id, meta)
    ensures KeepsOwner(id, meta)
  {
    RoundTripExactlyWhenSafe(id, meta);
    KeptExactlyWhen(id, meta);
  }

  lemma OneKey(meta: Meta, key: string)
    requires meta.Keys == {key} && key !in RESERVED
    ensures SortedKeys(meta) == [key]
  {
    assert meta.Keys - RESERVED == {key};
    assert |multiset({key})| == 1;
    SortedKeysList(meta);
    assert |SortedKeys(meta)| == |multiset(SortedKeys(meta))|;
    assert SortedKeys(meta)[0] in SortedKeys(meta);
  }

  lemma OnePiece(meta: Meta, key: string)
    requires meta.Keys == {key} && key !in RESERVED
    ensures Pieces(meta) == Split(Item(key, meta[key]), ',')
  {
    OneKey(meta, key);
    assert PairItems([key], meta) == [Item(key, meta[key])];
  }

  lemma OneClaim(piece: string)
    ensures LastClaim([piece]) == if HasPrefix(piece, CLAIM) then Some(piece[|CLAIM|..]) else None
  {
    var pieces := [piece];
    assert pieces[1..] == [];
  }

  /** An equals sign in a key can make the value match another instance, whatever ID comes before it. */
  lemma KeyChangesOwner(id: string, meta: Meta, other: string, text: string)
    requires ',' !in id && ',' !in other && ',' !in text
    requires meta == map[CLAIM + other := text]
    ensures MatchesOwnership(MakeValue(id, meta), other + "=" + text)
  {
    hide MakeValue;
    hide Pieces;
    hide Split;
    hide LastClaim;
    hide MatchesOwnership;
    var part := Item(CLAIM + other, text);
    assert (CLAIM + other)[8] == '=';
    OnePiece(meta, CLAIM + other);
    SplitWhole(part, ',');
    assert part[..|CLAIM|] == CLAIM && part[|CLAIM|..] == other + "=" + text;
    OneClaim(part);
    MatchesOneInstance(id, meta, other + "=" + text);
  }

  /** A metadata value that carries a comma can make the printed value match another instance. */
  lemma CommaChangesOwner(id: string, meta: Meta, key: string, text: string, other: string)
    requires key !in RESERVED && ',' !in key && '=' !in key
    requires ',' !in id && ',' !in text && ',' !in other
    requires meta == map[key := text + [','] + Item("instance", other)]
    ensures ParseValue(MakeValue(id, meta)) == Parsed(true, other, map[key := text])
    ensures MatchesOwnership(MakeValue(id, meta), other)
  {
    hide MakeValue;
    hide Pieces;
    hide Split;
    hide ParsePart;
    hide ParseParts;
    var first, last, start := Item(key, text), Item("instance", other), Parsed(true, id, map[]);
    OnePiece(meta, key);
    assert Item(key, meta[key]) == first + [','] + last;
    SplitAppend(first, ',', last);
    SplitWhole(last, ',');
    ParsePieces(id, meta);
    PartsStep(first, [last], start);
    ParseItem(key, text, start);
    PartsStep(last, [], start.(meta := map[key := text]));
    ParseItem("instance", other, start.(meta := map[key := text]));
    NoPieces(Parsed(true, other, map[key := text]));
    assert [last] + [] == [last];
  }
}
