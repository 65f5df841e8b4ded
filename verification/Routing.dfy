/** Which instances write a host: the first matching one for each backend and record type. */
module Routing {
  import opened Wrappers
  import opened Names
  import opened Backend
  import opened Model
  import Glob

  /** Its domains cover the host, and no filter names a key for which the host has a value that is not listed. */
  ghost predicate Suits(inst: Instance, h: Hostname) {
    && Glob.Handles(inst.domains, h.name)
    && !exists key :: key in inst.filters && key in h.meta && h.meta[key] !in inst.filters[key]
  }

  /** The i-th instance suits the host, and no earlier one that does writes the same type to the same backend. */
  ghost predicate FirstSuiting(reg: Registry, h: Hostname, i: int) {
    && 0 <= i < |reg| && Suits(reg[i], h)
    && forall j :: 0 <= j < i && Suits(reg[j], h) ==> reg[j].identity != reg[i].identity || reg[j].rtype != reg[i].rtype
  }

  ghost predicate FirstWanting(reg: Registry, h: Hostname, i: int) {
    0 <= i < |reg| && Wants(reg[i], h) && forall j :: 0 <= j < i && Wants(reg[j], h) ==> !SameSlot(reg[j], reg[i])
  }

  lemma WantingIsSuiting(reg: Registry, h: Hostname, i: int)
    ensures FirstWanting(reg, h, i) <==> FirstSuiting(reg, h, i)
  {
    hide Glob.Handles;
  }

  ghost predicate Picks(reg: Registry, at: seq<int>, chosen: Registry) {
    && |at| == |chosen|
    && (forall k :: 0 <= k < |at| ==> 0 <= at[k] < |reg| && chosen[k] == reg[at[k]])
    && (forall k, l :: 0 <= k < l < |at| ==> at[k] < at[l])
  }

  lemma {:induction false} MatchingMembers(reg: Registry, h: Hostname)
    ensures forall x :: x in Matching(reg, h) <==> exists j :: 0 <= j < |reg| && reg[j] == x && Wants(reg[j], h)
    decreases |reg|
  {
    if reg != [] {
      var n := |reg| - 1;
      MatchingMembers(reg[..n], h);
      forall x | x in Matching(reg, h) ensures exists j :: 0 <= j < |reg| && reg[j] == x && Wants(reg[j], h) {
        if x in Matching(reg[..n], h) {
          var j :| 0 <= j < n && reg[..n][j] == x && Wants(reg[..n][j], h);
          assert reg[j] == x;
        }
      }
      forall j | 0 <= j < |reg| && Wants(reg[j], h) ensures reg[j] in Matching(reg, h) {
        if j < n { assert reg[..n][j] == reg[j]; }
      }
    }
  }

  /** One more instance at the end of the registry adds itself, or nothing. */
  lemma OneMoreInstance(reg: Registry, h: Hostname)
    requires reg != []
    ensures var n := |reg| - 1;
            FirstPerSlot(Matching(reg, h)) ==
            FirstPerSlot(Matching(reg[..n], h)) + (if FirstWanting(reg, h, n) then [reg[n]] else [])
  {
    var n := |reg| - 1;
    var before, m := Matching(reg[..n], h), Matching(reg, h);
    MatchingMembers(reg[..n], h);
    if Wants(reg[n], h) {
      assert m[..|before|] == before && m[|before|] == reg[n];
      forall i | 0 <= i < |before| && SameSlot(before[i], reg[n]) ensures !FirstWanting(reg, h, n) {
        assert before[i] in before;
        var j :| 0 <= j < n && reg[..n][j] == before[i] && Wants(reg[..n][j], h);
        assert Wants(reg[j], h) && SameSlot(reg[j], reg[n]);
      }
      forall j | 0 <= j < n && Wants(reg[j], h) && SameSlot(reg[j], reg[n])
        ensures exists i :: 0 <= i < |before| && SameSlot(before[i], reg[n])
      {
        assert reg[..n][j] in before;
      }
    } else {
      assert m == before;
    }
  }

  lemma WantingBefore(reg: Registry, h: Hostname, n: nat, i: nat)
    requires i < n <= |reg|
    ensures FirstWanting(reg[..n], h, i) <==> FirstWanting(reg, h, i)
  {
  }

  lemma PicksGrows(reg: Registry, at: seq<int>, chosen: Registry)
    requires reg != [] && Picks(reg[..|reg| - 1], at, chosen)
    ensures Picks(reg, at, chosen)
    ensures Picks(reg, at + [|reg| - 1], chosen + [reg[|reg| - 1]])
  {
  }

  lemma NoWriters(h: Hostname)
    ensures Picks([], [], FirstPerSlot(Matching([], h)))
  {
  }

  /**
   * Without an explicit provider, the writers of a host are, in registry order, exactly the instances
   * that suit it and are the first to among those with their backend identity and record type.
   */
  lemma WritersExactly(reg: Registry, h: Hostname) returns (at: seq<int>)
    requires h.hints.None? || h.hints.value.provider == ""
    ensures Picks(reg, at, Writers(reg, h))
    ensures forall i :: i in at <==> FirstSuiting(reg, h, i)
  {
    hide FirstWanting;
    hide FirstSuiting;
    hide Picks;
    at := WritersByWanting(reg, h);
    forall i ensures FirstWanting(reg, h, i) <==> FirstSuiting(reg, h, i) { WantingIsSuiting(reg, h, i); }
  }

  /** With one, it is the instance of that name, or none. */
  lemma ExplicitWriter(reg: Registry, h: Hostname)
    requires h.hints.Some? && h.hints.value.provider != ""
    ensures |Writers(reg, h)| <= 1
    ensures Writers(reg, h) == [] <==> forall inst :: inst in reg ==> inst.name != h.hints.value.provider
    ensures forall inst :: inst in Writers(reg, h) ==> inst in reg && inst.name == h.hints.value.provider
  {
  }

  lemma {:induction false} WritersByWanting(reg: Registry, h: Hostname) returns (at: seq<int>)
    requires h.hints.None? || h.hints.value.provider == ""
    ensures Picks(reg, at, Writers(reg, h))
    ensures forall i :: i in at <==> FirstWanting(reg, h, i)
    decreases |reg|
  {
    hide Wants;
    hide SameSlot;
    hide Picks;
    hide Matching;
    hide FirstPerSlot;
    at := [];
    NoWriters(h);
    if reg != [] {
      var n := |reg| - 1;
      at := WritersByWanting(reg[..n], h);
      OneMoreInstance(reg, h);
      forall i | 0 <= i < n ensures FirstWanting(reg[..n], h, i) <==> FirstWanting(reg, h, i) {
        WantingBefore(reg, h, n, i);
      }
      PicksGrows(reg, at, Writers(reg[..n], h));
      assert Writers(reg[..n], h) + [] == Writers(reg[..n], h);
      if FirstWanting(reg, h, n) { at := at + [n]; }
    }
  }
}
