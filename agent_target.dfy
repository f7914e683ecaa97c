/** The agent's worker registry (pkg/agent/target.go): one LocalTarget
    worker per target identity, the result cache the workers write into,
    and the reconciler that turns a desired target list into the set of
    running workers. Each reconciliation runs as one atomic step; the
    workers' own goroutines are represented by their `quit` flag (the
    QuitChan being closed) and by one tick at a time. */
module AgentTarget {
  import opened Common

  /** The probe functions an agent can dispatch to (values of `Probers`). */
  datatype ProbeKind = HttpProbe | IcmpProbe

  /** The registry `Init` installs: prober type name to probe function. */
  function DefaultProbers(): (probers: map<string, ProbeKind>)
    ensures probers.Keys == {ProbeTypeHttp, ProbeTypeIcmp}
    ensures probers[ProbeTypeHttp] == HttpProbe && probers[ProbeTypeIcmp] == IcmpProbe
  {
    map[ProbeTypeHttp := HttpProbe, ProbeTypeIcmp := IcmpProbe]
  }

  /** Worker identity: target region, address and prober type concatenated
      with no separator. */
  function TargetId(region: string, addr: string, proberType: string): string {
    region + addr + proberType
  }

  /** The identity is not injective: two different targets can share one
      worker key, so the second is taken for the first and never probed. */
  lemma TargetIdCollides()
    ensures exists r1, a1, r2, a2 :: (r1, a1) != (r2, a2) && TargetId(r1, a1, "icmp") == TargetId(r2, a2, "icmp")
  {
    assert ("a", "bc") != ("ab", "c");
    assert TargetId("a", "bc", "icmp") == "abcicmp" == TargetId("ab", "c", "icmp");
  }

  /** PbResMap: worker identity to the last non-empty batch that worker produced. */
  class ResultCache {
    var entries: map<string, seq<ProbeResult>>

    constructor ()
      ensures entries == map[]
    {
      entries := map[];
    }

    /** PbResMap.Store */
    method Store(key: string, batch: seq<ProbeResult>)
      modifies this
      ensures entries == old(entries)[key := batch]
    {
      entries := entries[key := batch];
    }
  }

  /** One running probe worker. Everything but the quit signal is fixed at
      creation. */
  class LocalTarget {
    const addr: string
    const sourceRegion: string
    const targetRegion: string
    const probeType: string
    const prober: ProbeKind
    /** QuitChan has been closed. */
    var quit: bool

    constructor (addr: string, sourceRegion: string, targetRegion: string, probeType: string, prober: ProbeKind)
      ensures this.addr == addr && this.sourceRegion == sourceRegion
      ensures this.targetRegion == targetRegion && this.probeType == probeType
      ensures this.prober == prober && !quit
    {
      this.addr := addr;
      this.sourceRegion := sourceRegion;
      this.targetRegion := targetRegion;
      this.probeType := probeType;
      this.prober := prober;
      quit := false;
    }

    /** The key under which the worker is registered and caches its results. */
    function Uid(): (id: string)
      ensures id == TargetId(targetRegion, addr, probeType)
    {
      targetRegion + addr + probeType
    }

    /** Close the quit channel. Closing it twice would panic, so the worker
        must still be running. */
    method Stop()
      requires !quit
      modifies this
      ensures quit
    {
      quit := true;
    }

    /** One turn of the worker loop in `Start`: a closed quit channel ends
        the loop; otherwise the ticker fires, the probe runs and returns
        `batch`, and a non-empty batch replaces the worker's cache entry.
        An empty batch leaves the previous entry in place. */
    method Step(cache: ResultCache, batch: seq<ProbeResult>) returns (running: bool)
      modifies cache
      ensures running == !quit
      ensures running && |batch| > 0 ==> cache.entries == old(cache.entries)[Uid() := batch]
      ensures !running || |batch| == 0 ==> cache.entries == old(cache.entries)
    {
      if quit {
        return false;
      }
      if |batch| > 0 {
        cache.Store(Uid(), batch);
      }
      return true;
    }
  }

  /** The identities a list of addresses of one region and prober type asks for. */
  function AddrIds(region: string, addrs: seq<string>, proberType: string): set<string> {
    if addrs == [] then {}
    else AddrIds(region, addrs[..|addrs| - 1], proberType) + {TargetId(region, addrs[|addrs| - 1], proberType)}
  }

  /** The identities one desired entry asks for: none when no probe function
      is registered for its prober type. */
  function EntryIds(t: Targets, probers: map<string, ProbeKind>): set<string> {
    if t.proberType in probers then AddrIds(t.region, t.target, t.proberType) else {}
  }

  /** The identities a desired target list asks for. */
  function DesiredIds(desired: seq<Targets>, probers: map<string, ProbeKind>): set<string> {
    if desired == [] then {}
    else DesiredIds(desired[..|desired| - 1], probers) + EntryIds(desired[|desired| - 1], probers)
  }

  /** Some entry of `desired` asks for address `addr` in `region` with `proberType`. */
  ghost predicate Requested(desired: seq<Targets>, region: string, addr: string, proberType: string) {
    exists i | 0 <= i < |desired| :: desired[i].region == region && desired[i].proberType == proberType && addr in desired[i].target
  }

  /** A worker the reconciler created for `desired`: it runs in the local
      region, probes a requested target, and uses the registered probe. */
  ghost predicate Spawned(w: LocalTarget, desired: seq<Targets>, probers: map<string, ProbeKind>, localRegion: string) {
    && w.sourceRegion == localRegion
    && w.probeType in probers
    && w.prober == probers[w.probeType]
    && Requested(desired, w.targetRegion, w.addr, w.probeType)
  }

  lemma {:induction false} AddrIdsMembers(region: string, addrs: seq<string>, proberType: string, id: string)
    ensures id in AddrIds(region, addrs, proberType) <==> exists a | a in addrs :: id == TargetId(region, a, proberType)
  {
    if addrs != [] {
      var prefix := addrs[..|addrs| - 1];
      AddrIdsMembers(region, prefix, proberType, id);
      assert addrs == prefix + [addrs[|addrs| - 1]];
    }
  }

  /** An identity is desired exactly when some entry with a registered
      prober type lists an address that produces it: entries of an
      unregistered type contribute nothing. */
  lemma {:induction false} DesiredIdsMembers(desired: seq<Targets>, probers: map<string, ProbeKind>, id: string)
    ensures id in DesiredIds(desired, probers) <==>
      exists i | 0 <= i < |desired| :: desired[i].proberType in probers &&
        exists a | a in desired[i].target :: id == TargetId(desired[i].region, a, desired[i].proberType)
  {
    if desired != [] {
      var n := |desired| - 1;
      var prefix := desired[..n];
      DesiredIdsMembers(prefix, probers, id);
      AddrIdsMembers(desired[n].region, desired[n].target, desired[n].proberType, id);
      assert forall i | 0 <= i < n :: prefix[i] == desired[i];
    }
  }

  /** Listing an entry again asks for no new identity, so a repeated
      target still gets a single worker. */
  lemma DesiredIdsRepeat(desired: seq<Targets>, i: nat, probers: map<string, ProbeKind>)
    requires i < |desired|
    ensures DesiredIds(desired + [desired[i]], probers) == DesiredIds(desired, probers)
  {
    var t := desired[i];
    assert (desired + [t])[..|desired|] == desired;
    forall id | id in EntryIds(t, probers) ensures id in DesiredIds(desired, probers) {
      AddrIdsMembers(t.region, t.target, t.proberType, id);
      DesiredIdsMembers(desired, probers, id);
    }
  }

  /** LTM: the running workers keyed by identity. */
  class LocalTargetManager {
    var workers: map<string, LocalTarget>

    /** Every registered worker is keyed by its own Uid and still running. */
    ghost predicate Valid()
      reads this, workers.Values
    {
      forall k | k in workers :: workers[k].Uid() == k && !workers[k].quit
    }

    constructor ()
      ensures Valid() && workers == map[]
    {
      workers := map[];
    }

    /** GetMapKeys: every registered identity exactly once, in map order. */
    method GetMapKeys() returns (keys: seq<string>)
      ensures IsEnumeration(keys, workers.Keys)
      ensures |keys| == |workers|
    {
      var buf := new string[|workers|];
      var rest := workers.Keys;
      var i := 0;
      while rest != {}
        invariant rest <= workers.Keys
        invariant i + |rest| == |workers|
        invariant forall x | x in buf[..i] :: x in workers && x !in rest
        invariant forall x | x in workers && x !in rest :: x in buf[..i]
        invariant NoDup(buf[..i])
      {
        var k :| k in rest;
        buf[i] := k;
        assert buf[..i + 1] == buf[..i] + [k];
        i := i + 1;
        rest := rest - {k};
      }
      keys := buf[..];
    }

    /** The body of doRefreshWork for one desired target list: start a
        worker for every new identity of a registered prober type, stop and
        drop every worker whose identity is no longer desired, and leave the
        others alone. The key snapshot is taken before any worker is added,
        so workers started in this pass are never candidates for removal. */
    method Reconcile(desired: seq<Targets>, probers: map<string, ProbeKind>, localRegion: string)
      requires Valid()
      modifies this, workers.Values
      ensures Valid()
      ensures workers.Keys == DesiredIds(desired, probers)
      ensures forall k | k in old(workers) && k in workers :: workers[k] == old(workers)[k]
      ensures forall k | k in old(workers) && k !in workers :: old(workers)[k].quit
      ensures forall k | k in workers && k !in old(workers) ::
        fresh(workers[k]) && Spawned(workers[k], desired, probers, localRegion)
    {
      var localIds := GetMapKeys();
      var remoteTargetIds := StartDesired(desired, probers, localRegion);
      StopUndesired(localIds, remoteTargetIds);
    }

    /** First half of a reconciliation: walk the desired list, collect every
        identity of a registered prober type, and start a worker for each
        one not registered yet. */
    method StartDesired(desired: seq<Targets>, probers: map<string, ProbeKind>, localRegion: string)
      returns (remoteTargetIds: set<string>)
      requires Valid()
      modifies this
      ensures Valid()
      ensures remoteTargetIds == DesiredIds(desired, probers)
      ensures workers.Keys == old(workers).Keys + remoteTargetIds
      ensures forall k | k in old(workers) :: workers[k] == old(workers)[k]
      ensures forall k | k in workers && k !in old(workers) ::
        fresh(workers[k]) && Spawned(workers[k], desired, probers, localRegion)
    {
      remoteTargetIds := {};
      var i := 0;
      while i < |desired|
        invariant 0 <= i <= |desired|
        invariant remoteTargetIds == DesiredIds(desired[..i], probers)
        invariant workers.Keys == old(workers).Keys + remoteTargetIds
        invariant forall k | k in old(workers) :: workers[k] == old(workers)[k]
        invariant forall k | k in workers && k !in old(workers) ::
          fresh(workers[k]) && Spawned(workers[k], desired, probers, localRegion)
        invariant Valid()
      {
        var t := desired[i];
        assert desired[..i + 1] == desired[..i] + [t];
        if t.proberType in probers {
          var ids := StartEntry(desired, i, probers, localRegion);
          remoteTargetIds := remoteTargetIds + ids;
        }
        i := i + 1;
      }
      assert desired[..i] == desired;
    }

    /** The inner loop of the first half: the addresses of the registered
        entry `desired[i]`. */
    method StartEntry(desired: seq<Targets>, i: nat, probers: map<string, ProbeKind>, localRegion: string)
      returns (ids: set<string>)
      requires i < |desired| && desired[i].proberType in probers
      requires Valid()
      modifies this
      ensures Valid()
      ensures ids == AddrIds(desired[i].region, desired[i].target, desired[i].proberType)
      ensures workers.Keys == old(workers).Keys + ids
      ensures forall k | k in old(workers) :: workers[k] == old(workers)[k]
      ensures forall k | k in workers && k !in old(workers) ::
        fresh(workers[k]) && Spawned(workers[k], desired, probers, localRegion)
    {
      var t := desired[i];
      var pbFunc := probers[t.proberType];
      ids := {};
      var j := 0;
      while j < |t.target|
        invariant 0 <= j <= |t.target|
        invariant ids == AddrIds(t.region, t.target[..j], t.proberType)
        invariant workers.Keys == old(workers).Keys + ids
        invariant forall k | k in old(workers) :: workers[k] == old(workers)[k]
        invariant forall k | k in workers && k !in old(workers) ::
          fresh(workers[k]) && Spawned(workers[k], desired, probers, localRegion)
        invariant Valid()
      {
        var addr := t.target[j];
        assert t.target[..j + 1] == t.target[..j] + [addr];
        var thisId := TargetId(t.region, addr, t.proberType);
        ids := ids + {thisId};
        if thisId !in workers {
          var nt := new LocalTarget(addr, localRegion, t.region, t.proberType, pbFunc);
          assert Requested(desired, t.region, addr, t.proberType) by {
            assert desired[i] == t && addr in t.target;
          }
          workers := workers[thisId := nt];
        }
        j := j + 1;
      }
      assert t.target[..j] == t.target;
    }

    /** Second half of a reconciliation: stop and drop every identity of the
        earlier snapshot `localIds` that is not desired. */
    method StopUndesired(localIds: seq<string>, remoteTargetIds: set<string>)
      requires Valid()
      requires NoDup(localIds)
      requires forall k | k in localIds :: k in workers
      requires forall k | k in workers :: k in remoteTargetIds || k in localIds
      requires remoteTargetIds <= workers.Keys
      modifies this, workers.Values
      ensures Valid()
      ensures workers.Keys == remoteTargetIds
      ensures forall k | k in workers :: workers[k] == old(workers)[k]
      ensures forall k | k in old(workers) && k !in workers :: old(workers)[k].quit
    {
      var n := 0;
      while n < |localIds|
        invariant 0 <= n <= |localIds|
        invariant forall k :: k in workers <==> k in remoteTargetIds || k in localIds[n..]
        invariant forall k | k in workers :: k in old(workers) && workers[k] == old(workers)[k]
        invariant forall k | k in old(workers) && k !in workers :: old(workers)[k].quit
        invariant forall k | k in old(workers) :: old(workers)[k].Uid() == k
        invariant Valid()
      {
        var key := localIds[n];
        assert localIds[n..] == [key] + localIds[n + 1..];
        assert key !in localIds[n + 1..] by {
          var rest := localIds[n + 1..];
          assert forall j | 0 <= j < |rest| :: rest[j] == localIds[n + 1 + j];
        }
        if key !in remoteTargetIds {
          workers[key].Stop();
          workers := workers - {key};
        }
        n := n + 1;
      }
    }
  }
}
