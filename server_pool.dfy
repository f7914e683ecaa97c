/** The server's target pool (pkg/server/target_pool.go): the icmp view
    (region to one icmp target list, IcmpRegionProberMap), the other view
    (region to the configured target lists, OtherRegionProberMap) and the
    agent roster (agent ip to region, AgentIpRegionMap). Each refresh runs
    as one atomic step; the configuration file is passed in as its list
    of entries. */
module ServerPool {
  import opened Common

  // ---------------------------------------------------------------------
  // The shared merge

  /** The held addresses that are not among the incoming ones, in held order. */
  function KeepAbsent(held: seq<string>, incoming: seq<string>): seq<string> {
    if held == [] then []
    else
      var n := |held| - 1;
      KeepAbsent(held[..n], incoming) + (if held[n] in incoming then [] else [held[n]])
  }

  /** The merge of a incoming address list into a held one: the incoming list,
      then every held address it lacks. */
  function MergedAddrs(incoming: seq<string>, held: seq<string>): seq<string> {
    incoming + KeepAbsent(held, incoming)
  }

  /** The merge as the source runs it: a lookup map of the incoming list, then
      one append per held address missing from it. */
  method MergeAddresses(thisT: seq<string>, originT: seq<string>) returns (merged: seq<string>)
    ensures merged == MergedAddrs(thisT, originT)
  {
    var thisTM: map<string, string> := map[];
    var i := 0;
    while i < |thisT|
      invariant 0 <= i <= |thisT|
      invariant forall x :: x in thisTM <==> x in thisT[..i]
    {
      assert thisT[..i + 1] == thisT[..i] + [thisT[i]];
      thisTM := thisTM[thisT[i] := thisT[i]];
      i := i + 1;
    }
    assert thisT[..i] == thisT;
    merged := thisT;
    var j := 0;
    while j < |originT|
      invariant 0 <= j <= |originT|
      invariant merged == thisT + KeepAbsent(originT[..j], thisT)
    {
      var tt := originT[j];
      assert originT[..j + 1][..j] == originT[..j];
      if tt !in thisTM {
        merged := merged + [tt];
      }
      j := j + 1;
    }
    assert originT[..j] == originT;
  }

  lemma {:induction false} KeepAbsentMembers(held: seq<string>, incoming: seq<string>, x: string)
    ensures x in KeepAbsent(held, incoming) <==> x in held && x !in incoming
  {
    if held != [] {
      var n := |held| - 1;
      KeepAbsentMembers(held[..n], incoming, x);
      assert held == held[..n] + [held[n]];
    }
  }

  lemma {:induction false} KeepAbsentConcat(a: seq<string>, b: seq<string>, incoming: seq<string>)
    ensures KeepAbsent(a + b, incoming) == KeepAbsent(a, incoming) + KeepAbsent(b, incoming)
    decreases |b|
  {
    if b == [] {
      assert a + b == a;
    } else {
      var n := |b| - 1;
      assert (a + b)[..|a + b| - 1] == a + b[..n];
      KeepAbsentConcat(a, b[..n], incoming);
    }
  }

  /** Filtering a list free of the incoming addresses keeps it whole. */
  lemma {:induction false} KeepAbsentDisjoint(held: seq<string>, incoming: seq<string>)
    requires forall x | x in held :: x !in incoming
    ensures KeepAbsent(held, incoming) == held
  {
    if held != [] {
      var n := |held| - 1;
      KeepAbsentDisjoint(held[..n], incoming);
      assert held == held[..n] + [held[n]];
    }
  }

  /** Filtering incoming addresses out of a list of them leaves nothing. */
  lemma {:induction false} KeepAbsentCovered(held: seq<string>, incoming: seq<string>)
    requires forall x | x in held :: x in incoming
    ensures KeepAbsent(held, incoming) == []
  {
    if held != [] {
      var n := |held| - 1;
      KeepAbsentCovered(held[..n], incoming);
    }
  }

  /** No held address is dropped and nothing else is added: the merge is
      the union, and the incoming list is kept in front, in order. */
  lemma MergedUnion(incoming: seq<string>, held: seq<string>)
    ensures forall x :: x in MergedAddrs(incoming, held) <==> x in incoming || x in held
    ensures MergedAddrs(incoming, held)[..|incoming|] == incoming
  {
    forall x ensures x in MergedAddrs(incoming, held) <==> x in incoming || x in held {
      KeepAbsentMembers(held, incoming, x);
    }
  }

  /** Merging the same incoming list again changes nothing. */
  lemma MergedIdempotent(incoming: seq<string>, held: seq<string>)
    ensures MergedAddrs(incoming, MergedAddrs(incoming, held)) == MergedAddrs(incoming, held)
  {
    var k := KeepAbsent(held, incoming);
    KeepAbsentConcat(incoming, k, incoming);
    KeepAbsentCovered(incoming, incoming);
    forall x | x in k ensures x !in incoming {
      KeepAbsentMembers(held, incoming, x);
    }
    KeepAbsentDisjoint(k, incoming);
    assert KeepAbsent(incoming + k, incoming) == k;
  }

  /** Merged lists of distinct addresses hold distinct addresses. */
  lemma {:induction false} MergedNoDup(incoming: seq<string>, held: seq<string>)
    requires NoDup(incoming) && NoDup(held)
    ensures NoDup(MergedAddrs(incoming, held))
  {
    KeepAbsentNoDup(held, incoming);
    var k := KeepAbsent(held, incoming);
    var m := incoming + k;
    forall i, j | 0 <= i < j < |m| ensures m[i] != m[j] {
      if j >= |incoming| && i < |incoming| {
        assert m[j] in k;
        KeepAbsentMembers(held, incoming, m[j]);
      }
    }
  }

  lemma {:induction false} KeepAbsentNoDup(held: seq<string>, incoming: seq<string>)
    requires NoDup(held)
    ensures NoDup(KeepAbsent(held, incoming))
  {
    if held != [] {
      var n := |held| - 1;
      var p := held[..n];
      KeepAbsentNoDup(p, incoming);
      KeepAbsentMembers(p, incoming, held[n]);
      assert held[n] !in p;
    }
  }

  /** Held [A, B] merged with incoming [B, C] gives [B, C, A]. */
  lemma MergeExample()
    ensures MergedAddrs(["B", "C"], ["A", "B"]) == ["B", "C", "A"]
  {
    assert ["A", "B"][..1] == ["A"];
    assert ["A"][..0] == [];
  }

  // ---------------------------------------------------------------------
  // Specification of the views

  /** The icmp entry stored for `region` after LoadOrStore of `t`: `t`
      itself on first sight, else the merge with the held entry. */
  function Absorbed(view: map<string, Targets>, region: string, t: Targets): Targets {
    if region in view then Targets(region, ProbeTypeIcmp, MergedAddrs(t.target, view[region].target)) else t
  }

  /** The icmp view after absorbing one entry per region of `updates`. */
  function AbsorbAllView(view: map<string, Targets>, updates: map<string, Targets>): (r: map<string, Targets>)
    ensures r.Keys == view.Keys + updates.Keys
  {
    map k | k in view.Keys + updates.Keys :: if k in updates then Absorbed(view, k, updates[k]) else view[k]
  }

  /** Every icmp-view entry is keyed by its own region and is of type icmp. */
  ghost predicate ValidIcmpView(view: map<string, Targets>) {
    forall r | r in view :: view[r].region == r && view[r].proberType == ProbeTypeIcmp
  }

  /** Absorbing well-formed entries keeps the view well formed, and no
      address held for a region is ever lost. */
  lemma AbsorbAllViewSpec(view: map<string, Targets>, updates: map<string, Targets>)
    requires ValidIcmpView(view) && ValidIcmpView(updates)
    ensures ValidIcmpView(AbsorbAllView(view, updates))
    ensures forall r, a | r in view && a in view[r].target :: a in AbsorbAllView(view, updates)[r].target
    ensures forall r, a | r in updates && a in updates[r].target :: a in AbsorbAllView(view, updates)[r].target
  {
    forall r | r in view.Keys * updates.Keys {
      MergedUnion(updates[r].target, view[r].target);
    }
  }

  /** The roster grouped by region, each region listing its agents in the
      enumeration order (tmpM). */
  function GroupByRegion(order: seq<string>, roster: map<string, string>): map<string, seq<string>>
    requires forall ip | ip in order :: ip in roster
  {
    if order == [] then map[]
    else
      var n := |order| - 1;
      var g := GroupByRegion(order[..n], roster);
      var region := roster[order[n]];
      g[region := Lookup(g, region) + [order[n]]]
  }

  /** A region has a group exactly when some enumerated agent is in it, and
      the group lists exactly the enumerated agents of that region, each
      once when the enumeration repeats nobody. */
  lemma {:induction false} GroupByRegionMembers(order: seq<string>, roster: map<string, string>, region: string, ip: string)
    requires forall x | x in order :: x in roster
    ensures region in GroupByRegion(order, roster) <==> exists x | x in order :: roster[x] == region
    ensures ip in Lookup(GroupByRegion(order, roster), region) <==> ip in order && roster[ip] == region
    ensures NoDup(order) ==> NoDup(Lookup(GroupByRegion(order, roster), region))
  {
    if order != [] {
      var n := |order| - 1;
      var p := order[..n];
      GroupByRegionMembers(p, roster, region, ip);
      GroupByRegionMembers(p, roster, region, order[n]);
      assert order == p + [order[n]];
      if NoDup(order) {
        assert NoDup(p) by {
          assert forall i, j | 0 <= i < j < |p| :: p[i] == order[i] && p[j] == order[j];
        }
        assert order[n] !in p;
      }
    }
  }

  /** The roster groups as icmp targets (the tNew of each region). */
  function Projection(groups: map<string, seq<string>>): (r: map<string, Targets>)
    ensures ValidIcmpView(r)
  {
    map region | region in groups :: Targets(region, ProbeTypeIcmp, groups[region])
  }

  /** The projection of the roster: one icmp entry per region that has an
      agent, listing exactly that region's agents, each once. */
  lemma RosterProjection(order: seq<string>, roster: map<string, string>, region: string)
    requires IsEnumeration(order, roster.Keys)
    ensures var p := Projection(GroupByRegion(order, roster));
      && (region in p <==> exists ip | ip in roster :: roster[ip] == region)
      && (region in p ==>
            && p[region].region == region && p[region].proberType == ProbeTypeIcmp
            && NoDup(p[region].target)
            && forall ip :: ip in p[region].target <==> ip in roster && roster[ip] == region)
  {
    var g := GroupByRegion(order, roster);
    GroupByRegionMembers(order, roster, region, "");
    forall ip ensures ip in Lookup(g, region) <==> ip in roster && roster[ip] == region {
      GroupByRegionMembers(order, roster, region, ip);
    }
  }

  /** The configured icmp entry per region: the last icmp entry of that
      region (icmpM). */
  function LastIcmp(entries: seq<Targets>): map<string, Targets> {
    if entries == [] then map[]
    else
      var n := |entries| - 1;
      var m := LastIcmp(entries[..n]);
      if entries[n].proberType == ProbeTypeIcmp then m[entries[n].region := entries[n]] else m
  }

  /** The configured lists per region (otmpM): every entry once, and every
      entry of another type a second time. */
  function OtherLists(entries: seq<Targets>): map<string, seq<Targets>> {
    if entries == [] then map[]
    else
      var n := |entries| - 1;
      var m := OtherLists(entries[..n]);
      var t := entries[n];
      m[t.region := Lookup(m, t.region) + (if t.proberType == ProbeTypeIcmp then [t] else [t, t])]
  }

  /** A region has a configured icmp entry exactly when some icmp entry
      names it, and that entry is the last such one; it is well formed. */
  lemma LastIcmpSpec(entries: seq<Targets>, region: string)
    ensures ValidIcmpView(LastIcmp(entries))
    ensures region in LastIcmp(entries) <==>
      exists i | 0 <= i < |entries| :: entries[i].region == region && entries[i].proberType == ProbeTypeIcmp
    ensures region in LastIcmp(entries) ==>
      exists i | 0 <= i < |entries| :: entries[i] == LastIcmp(entries)[region] &&
        forall j | i < j < |entries| :: !(entries[j].region == region && entries[j].proberType == ProbeTypeIcmp)
  {
    LastIcmpValid(entries);
    LastIcmpKeys(entries, region);
    LastIcmpIsLast(entries, region);
  }

  /** The icmp entry of the last entry, if any, overrides the earlier ones. */
  lemma LastIcmpStep(entries: seq<Targets>)
    requires entries != []
    ensures var n := |entries| - 1;
      LastIcmp(entries) ==
        if entries[n].proberType == ProbeTypeIcmp then LastIcmp(entries[..n])[entries[n].region := entries[n]]
        else LastIcmp(entries[..n])
  {
  }

  lemma {:induction false} LastIcmpValid(entries: seq<Targets>)
    ensures ValidIcmpView(LastIcmp(entries))
  {
    if entries != [] {
      LastIcmpValid(entries[..|entries| - 1]);
      LastIcmpStep(entries);
    }
  }

  lemma {:induction false} LastIcmpKeys(entries: seq<Targets>, region: string)
    ensures region in LastIcmp(entries) <==>
      exists i | 0 <= i < |entries| :: entries[i].region == region && entries[i].proberType == ProbeTypeIcmp
  {
    if entries != [] {
      var n := |entries| - 1;
      var p := entries[..n];
      LastIcmpKeys(p, region);
      LastIcmpStep(entries);
      assert forall i | 0 <= i < n :: p[i] == entries[i];
    }
  }

  lemma {:induction false} LastIcmpIsLast(entries: seq<Targets>, region: string)
    ensures region in LastIcmp(entries) ==>
      exists i | 0 <= i < |entries| :: entries[i] == LastIcmp(entries)[region] &&
        forall j | i < j < |entries| :: !(entries[j].region == region && entries[j].proberType == ProbeTypeIcmp)
  {
    if entries != [] {
      var n := |entries| - 1;
      var p := entries[..n];
      var last := entries[n];
      var m := LastIcmp(p);
      LastIcmpIsLast(p, region);
      LastIcmpStep(entries);
      if last.region == region && last.proberType == ProbeTypeIcmp {
        assert entries[n] == LastIcmp(entries)[region];
      } else if region in m {
        assert LastIcmp(entries)[region] == m[region];
        var i :| 0 <= i < n && p[i] == m[region] &&
          forall j | i < j < n :: !(p[j].region == region && p[j].proberType == ProbeTypeIcmp);
        assert entries[i] == p[i];
        assert forall j | i < j < n :: entries[j] == p[j];
      }
    }
  }

  /** A region has configured lists exactly when some entry names it, and
      they hold exactly the entries of that region. */
  lemma {:induction false} OtherListsMembers(entries: seq<Targets>, region: string, t: Targets)
    ensures region in OtherLists(entries) <==> exists i | 0 <= i < |entries| :: entries[i].region == region
    ensures t in Lookup(OtherLists(entries), region) <==> t in entries && t.region == region
  {
    if entries != [] {
      var n := |entries| - 1;
      var p := entries[..n];
      OtherListsMembers(p, region, t);
      assert entries == p + [entries[n]];
      assert forall i | 0 <= i < n :: p[i] == entries[i];
    }
  }

  /** The copies of entry `t` that go into `region`'s configured list:
      none for another region, one for an icmp entry, two for any other. */
  function Copies(t: Targets, region: string): seq<Targets> {
    if t.region != region then []
    else if t.proberType == ProbeTypeIcmp then [t]
    else [t, t]
  }

  /** The configured list of `region`, entry by entry from the front. */
  function RegionExpansion(entries: seq<Targets>, region: string): seq<Targets> {
    if entries == [] then []
    else Copies(entries[0], region) + RegionExpansion(entries[1..], region)
  }

  lemma {:induction false} RegionExpansionSnoc(p: seq<Targets>, t: Targets, region: string)
    ensures RegionExpansion(p + [t], region) == RegionExpansion(p, region) + Copies(t, region)
    decreases |p|
  {
    if p == [] {
      assert [t][1..] == [];
    } else {
      assert (p + [t])[0] == p[0] && (p + [t])[1..] == p[1..] + [t];
      RegionExpansionSnoc(p[1..], t, region);
    }
  }

  /** A region's configured list is exactly its entries in configuration
      order, each icmp entry once and each other entry twice in a row. */
  lemma {:induction false} OtherListsExact(entries: seq<Targets>, region: string)
    ensures Lookup(OtherLists(entries), region) == RegionExpansion(entries, region)
  {
    if entries != [] {
      var n := |entries| - 1;
      var p := entries[..n];
      OtherListsExact(p, region);
      assert entries == p + [entries[n]];
      RegionExpansionSnoc(p, entries[n], region);
    }
  }

  /** An http entry is listed twice, an icmp entry once. */
  lemma OtherListsExample(h: Targets, c: Targets)
    requires h.region == c.region && h.proberType == ProbeTypeHttp && c.proberType == ProbeTypeIcmp
    ensures OtherLists([h, c])[h.region] == [h, h, c]
  {
    assert ProbeTypeHttp[0] != ProbeTypeIcmp[0];
    assert [h, c][..1] == [h];
    assert [h][..0] == [];
    var m0 := OtherLists([h][..0]);
    assert m0 == map[];
    assert Lookup(m0, h.region) == [];
    assert OtherLists([h]) == m0[h.region := Lookup(m0, h.region) + [h, h]];
    assert Lookup(m0, h.region) + [h, h] == [h, h];
    assert OtherLists([h]) == map[h.region := [h, h]];
    assert [h, h] + [c] == [h, h, c];
  }

  /** The icmp-view entries of regions other than `sourceRegion`, in the
      enumeration order. */
  function IcmpOthers(order: seq<string>, view: map<string, Targets>, sourceRegion: string): seq<Targets>
    requires forall k | k in order :: k in view
  {
    if order == [] then []
    else
      var n := |order| - 1;
      IcmpOthers(order[..n], view, sourceRegion) + (if order[n] != sourceRegion then [view[order[n]]] else [])
  }

  lemma {:induction false} IcmpOthersMembers(order: seq<string>, view: map<string, Targets>, sourceRegion: string, t: Targets)
    requires forall k | k in order :: k in view
    ensures t in IcmpOthers(order, view, sourceRegion) <==> exists k | k in order :: k != sourceRegion && view[k] == t
  {
    if order != [] {
      var n := |order| - 1;
      var p := order[..n];
      var last := order[n];
      IcmpOthersMembers(p, view, sourceRegion, t);
      forall k | k in p ensures k in order {
        var i :| 0 <= i < |p| && p[i] == k;
        assert order[i] == k;
      }
      if exists k | k in order :: k != sourceRegion && view[k] == t {
        var k :| k in order && k != sourceRegion && view[k] == t;
        if k != last {
          var i :| 0 <= i < |order| && order[i] == k;
          assert p[i] == k;
        }
      }
    }
  }

  // ---------------------------------------------------------------------
  // The pool

  class TargetPool {
    var icmpView: map<string, Targets>
    var otherView: map<string, seq<Targets>>
    var roster: map<string, string>

    ghost predicate Valid()
      reads this
    {
      ValidIcmpView(icmpView)
    }

    constructor ()
      ensures Valid()
      ensures icmpView == map[] && otherView == map[] && roster == map[]
    {
      icmpView := map[];
      otherView := map[];
      roster := map[];
    }

    /** LoadOrStore of `t` under `region`, followed on a hit by the merge
      with the held entry and a Store of the result. */
    method StoreOrMerge(region: string, t: Targets)
      modifies this
      ensures icmpView == old(icmpView)[region := Absorbed(old(icmpView), region, t)]
      ensures otherView == old(otherView) && roster == old(roster)
    {
      if region in icmpView {
        var thisT := MergeAddresses(t.target, icmpView[region].target);
        icmpView := icmpView[region := Targets(region, ProbeTypeIcmp, thisT)];
      } else {
        icmpView := icmpView[region := t];
      }
    }

    /** The loop over a region-to-entry map shared by both refreshes:
      absorb every entry, in map order. */
    method AbsorbAll(updates: map<string, Targets>)
      modifies this
      ensures icmpView == AbsorbAllView(old(icmpView), updates)
      ensures otherView == old(otherView) && roster == old(roster)
    {
      var rest := updates.Keys;
      while rest != {}
        invariant rest <= updates.Keys
        invariant icmpView.Keys == old(icmpView).Keys + (updates.Keys - rest)
        invariant forall k | k in updates && k !in rest :: icmpView[k] == Absorbed(old(icmpView), k, updates[k])
        invariant forall k | k in old(icmpView) && (k !in updates || k in rest) :: icmpView[k] == old(icmpView)[k]
        invariant otherView == old(otherView) && roster == old(roster)
        decreases rest
      {
        var k :| k in rest;
        StoreOrMerge(k, updates[k]);
        rest := rest - {k};
      }
    }

    /** flushAgentIpIntoGlobalMap: group the roster by region (in roster
      order) and absorb one icmp entry per region. */
    method FlushAgentIpIntoGlobalMap() returns (ghost rosterOrder: seq<string>, ghost groups: map<string, seq<string>>)
      requires Valid()
      modifies this
      ensures Valid()
      ensures IsEnumeration(rosterOrder, roster.Keys)
      ensures groups == GroupByRegion(rosterOrder, roster)
      ensures icmpView == AbsorbAllView(old(icmpView), Projection(groups))
      ensures otherView == old(otherView) && roster == old(roster)
    {
      var tmpM: map<string, seq<string>> := map[];
      rosterOrder := [];
      var rest := roster.Keys;
      while rest != {}
        invariant rest <= roster.Keys
        invariant NoDup(rosterOrder)
        invariant forall x | x in rosterOrder :: x in roster && x !in rest
        invariant forall x | x in roster && x !in rest :: x in rosterOrder
        invariant tmpM == GroupByRegion(rosterOrder, roster)
        decreases rest
      {
        var ip :| ip in rest;
        var region := roster[ip];
        assert (rosterOrder + [ip])[..|rosterOrder|] == rosterOrder;
        tmpM := tmpM[region := Lookup(tmpM, region) + [ip]];
        rosterOrder := rosterOrder + [ip];
        rest := rest - {ip};
      }
      groups := tmpM;
      AbsorbAll(Projection(tmpM));
      AbsorbAllViewSpec(old(icmpView), Projection(tmpM));
    }

    /** refreshFromConfigFile with the parsed entries: nothing happens for an
      empty list; otherwise the last icmp entry per region is absorbed into
      the icmp view, and the other view takes the configured lists of every
      configured region, leaving the other regions' lists alone. */
    method RefreshFromConfigFile(entries: seq<Targets>)
      requires Valid()
      modifies this
      ensures Valid()
      ensures entries == [] ==> icmpView == old(icmpView) && otherView == old(otherView)
      ensures entries != [] ==> icmpView == AbsorbAllView(old(icmpView), LastIcmp(entries))
      ensures entries != [] ==> otherView == old(otherView) + OtherLists(entries)
      ensures roster == old(roster)
    {
      if |entries| <= 0 {
        return;
      }
      var otmpM: map<string, seq<Targets>> := map[];
      var icmpM: map<string, Targets> := map[];
      var i := 0;
      while i < |entries|
        invariant 0 <= i <= |entries|
        invariant otmpM == OtherLists(entries[..i])
        invariant icmpM == LastIcmp(entries[..i])
      {
        var t := entries[i];
        assert entries[..i + 1][..i] == entries[..i];
        var prev := Lookup(otmpM, t.region);
        otmpM := otmpM[t.region := prev + [t]];
        if t.proberType == ProbeTypeIcmp {
          icmpM := icmpM[t.region := t];
        } else {
          otmpM := otmpM[t.region := otmpM[t.region] + [t]];
          assert prev + [t] + [t] == prev + [t, t];
        }
        i := i + 1;
      }
      assert entries[..i] == entries;
      LastIcmpSpec(entries, "");
      AbsorbAll(icmpM);
      AbsorbAllViewSpec(old(icmpView), icmpM);
      StoreAll(otmpM);
    }

    /** The final Range over otmpM: Store each region's lists. */
    method StoreAll(lists: map<string, seq<Targets>>)
      modifies this
      ensures otherView == old(otherView) + lists
      ensures icmpView == old(icmpView) && roster == old(roster)
    {
      var rest := lists.Keys;
      while rest != {}
        invariant rest <= lists.Keys
        invariant otherView.Keys == old(otherView).Keys + (lists.Keys - rest)
        invariant forall k | k in lists && k !in rest :: otherView[k] == lists[k]
        invariant forall k | k in old(otherView) && (k !in lists || k in rest) :: otherView[k] == old(otherView)[k]
        invariant icmpView == old(icmpView) && roster == old(roster)
        decreases rest
      {
        var k :| k in rest;
        otherView := otherView[k := lists[k]];
        rest := rest - {k};
      }
    }

    /** GetTargetsByRegion: the icmp entries of every other region, then
      every configured list of every region, the asking one included. */
    method GetTargetsByRegion(sourceRegion: string)
      returns (res: seq<Targets>, ghost icmpOrder: seq<string>, ghost otherOrder: seq<string>)
      ensures IsEnumeration(icmpOrder, icmpView.Keys) && IsEnumeration(otherOrder, otherView.Keys)
      ensures res == IcmpOthers(icmpOrder, icmpView, sourceRegion) + ConcatValues(otherOrder, otherView)
      ensures forall t :: t in res <==>
        (exists r | r in icmpView :: r != sourceRegion && icmpView[r] == t) ||
        (exists r | r in otherView :: t in otherView[r])
      ensures Valid() ==> forall i | 0 <= i < |IcmpOthers(icmpOrder, icmpView, sourceRegion)| ::
        res[i].region != sourceRegion && res[i].proberType == ProbeTypeIcmp
    {
      res := [];
      icmpOrder := [];
      var rest := icmpView.Keys;
      while rest != {}
        invariant rest <= icmpView.Keys
        invariant NoDup(icmpOrder)
        invariant forall x | x in icmpOrder :: x in icmpView && x !in rest
        invariant forall x | x in icmpView && x !in rest :: x in icmpOrder
        invariant res == IcmpOthers(icmpOrder, icmpView, sourceRegion)
        decreases rest
      {
        var key :| key in rest;
        assert (icmpOrder + [key])[..|icmpOrder|] == icmpOrder;
        if key != sourceRegion {
          res := res + [icmpView[key]];
        }
        icmpOrder := icmpOrder + [key];
        rest := rest - {key};
      }
      var icmpPart := res;
      otherOrder := [];
      var orest := otherView.Keys;
      while orest != {}
        invariant orest <= otherView.Keys
        invariant NoDup(otherOrder)
        invariant forall x | x in otherOrder :: x in otherView && x !in orest
        invariant forall x | x in otherView && x !in orest :: x in otherOrder
        invariant res == icmpPart + ConcatValues(otherOrder, otherView)
        decreases orest
      {
        var key :| key in orest;
        assert (otherOrder + [key])[..|otherOrder|] == otherOrder;
        res := res + otherView[key];
        otherOrder := otherOrder + [key];
        orest := orest - {key};
      }
      forall t ensures t in res <==>
        (exists r | r in icmpView :: r != sourceRegion && icmpView[r] == t) ||
        (exists r | r in otherView :: t in otherView[r])
      {
        IcmpOthersMembers(icmpOrder, icmpView, sourceRegion, t);
        ConcatValuesMembers(otherOrder, otherView, t);
      }
      if Valid() {
        forall i | 0 <= i < |icmpPart| ensures res[i].region != sourceRegion && res[i].proberType == ProbeTypeIcmp {
          assert res[i] == icmpPart[i];
          IcmpOthersMembers(icmpOrder, icmpView, sourceRegion, icmpPart[i]);
        }
      }
    }
  }
}
