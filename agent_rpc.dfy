/** The agent's side of the RPC exchange (pkg/agent/rpc.go), with the
    connection pool and the remote calls reduced to their outcomes: the
    push of the flattened result cache, the forwarding of a fetched target
    list to the reconciler, and the heartbeat request. */
module AgentRpc {
  import opened Common
  import opened AgentTarget

  /** What one run of pushPbResults does. A failed call is only logged:
      `delivered` says whether the server answered, and nothing is
      re-queued either way. */
  datatype PushOutcome =
    | Skipped
    | NoConnection
    | Pushed(request: seq<ProbeResult>, delivered: bool)

  /** The Range over PbResMap: every cached batch appended, in map order. */
  method FlattenCache(cache: ResultCache) returns (prs: seq<ProbeResult>, ghost order: seq<string>)
    ensures IsEnumeration(order, cache.entries.Keys)
    ensures prs == ConcatValues(order, cache.entries)
    ensures forall x :: x in prs <==> exists k | k in cache.entries :: x in cache.entries[k]
    ensures prs == [] <==> forall k | k in cache.entries :: cache.entries[k] == []
  {
    prs := [];
    order := [];
    var rest := cache.entries.Keys;
    while rest != {}
      invariant rest <= cache.entries.Keys
      invariant NoDup(order)
      invariant forall k | k in order :: k in cache.entries && k !in rest
      invariant forall k | k in cache.entries && k !in rest :: k in order
      invariant prs == ConcatValues(order, cache.entries)
      decreases rest
    {
      var k :| k in rest;
      assert (order + [k])[..|order|] == order;
      prs := prs + cache.entries[k];
      order := order + [k];
      rest := rest - {k};
    }
    forall x ensures x in prs <==> exists k | k in cache.entries :: x in cache.entries[k] {
      ConcatValuesMembers(order, cache.entries, x);
    }
    ConcatValuesEmpty(order, cache.entries);
  }

  /** pushPbResults: flatten the cache; when nothing is cached skip the
      push without taking a connection; when no connection is available
      give up; otherwise send everything. `poolOk` is the outcome of
      GrpcPool.Get and `callOk` that of the remote call. The cache is only
      read. */
  method PushPbResults(cache: ResultCache, poolOk: bool, callOk: bool)
    returns (outcome: PushOutcome, ghost order: seq<string>)
    ensures IsEnumeration(order, cache.entries.Keys)
    ensures outcome.Skipped? <==> forall k | k in cache.entries :: cache.entries[k] == []
    ensures outcome.NoConnection? <==> !poolOk && exists k | k in cache.entries :: cache.entries[k] != []
    ensures outcome.Pushed? ==> poolOk && outcome.delivered == callOk
    ensures outcome.Pushed? ==> outcome.request == ConcatValues(order, cache.entries)
    ensures outcome.Pushed? ==> forall x ::
      x in outcome.request <==> exists k | k in cache.entries :: x in cache.entries[k]
  {
    var prs;
    prs, order := FlattenCache(cache);
    ConcatValuesEmpty(order, cache.entries);
    if |prs| == 0 {
      return Skipped, order;
    }
    if !poolOk {
      return NoConnection, order;
    }
    forall x ensures x in prs <==> exists k | k in cache.entries :: x in cache.entries[k] {
      ConcatValuesMembers(order, cache.entries, x);
    }
    return Pushed(prs, callOk), order;
  }

  /** The decision of getProberTarget: the fetched list reaches the
      reconciler only when a connection was obtained, the call succeeded
      and the list is non-empty. */
  function ForwardedTargets(poolOk: bool, reply: Result<seq<Targets>>): (fwd: Option<seq<Targets>>)
    ensures fwd.Some? <==> poolOk && reply.Ok? && |reply.value| > 0
    ensures fwd.Some? ==> fwd.value == reply.value
  {
    if !poolOk then None
    else match reply
      case Err(_) => None
      case Ok(targets) => if |targets| > 0 then Some(targets) else None
  }

  /** getProberTarget followed by the reconciler receiving from
      TargetUpdateChan: a forwarded list becomes the worker set, anything
      else leaves the workers alone. */
  method RefreshTargets(ltm: LocalTargetManager, poolOk: bool, reply: Result<seq<Targets>>,
                        probers: map<string, ProbeKind>, localRegion: string)
    returns (forwarded: bool)
    requires ltm.Valid()
    modifies ltm, ltm.workers.Values
    ensures ltm.Valid()
    ensures forwarded <==> poolOk && reply.Ok? && |reply.value| > 0
    ensures forwarded ==> ltm.workers.Keys == DesiredIds(reply.value, probers)
    ensures forwarded ==> forall k | k in old(ltm.workers) && k in ltm.workers ::
      ltm.workers[k] == old(ltm.workers)[k]
    ensures forwarded ==> forall k | k in old(ltm.workers) && k !in ltm.workers :: old(ltm.workers)[k].quit
    ensures forwarded ==> forall k | k in ltm.workers && k !in old(ltm.workers) ::
      fresh(ltm.workers[k]) && Spawned(ltm.workers[k], reply.value, probers, localRegion)
    ensures !forwarded ==> ltm.workers == old(ltm.workers)
    ensures !forwarded ==> forall w | w in old(ltm.workers.Values) :: unchanged(w)
  {
    match ForwardedTargets(poolOk, reply)
    case None =>
      forwarded := false;
    case Some(targets) =>
      ltm.Reconcile(targets, probers, localRegion);
      forwarded := true;
  }

  /** The request reportAgentIp sends. */
  function ReportRequest(localIp: string, localRegion: string): (req: ProberAgentIpReportRequest)
    ensures req.ip == localIp && req.region == localRegion
  {
    ProberAgentIpReportRequest(localIp, localRegion)
  }

  /** The request getProberTarget sends. */
  function FetchRequest(localRegion: string, localIp: string): (req: ProberTargetsGetRequest)
    ensures req.localRegion == localRegion && req.localIp == localIp
  {
    ProberTargetsGetRequest(localRegion, localIp)
  }
}
