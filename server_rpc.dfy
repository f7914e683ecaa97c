/** The server's gRPC handlers (pkg/server/rpc.go): GetProberTargets,
    PushProberResults and ProberAgentIpReports, over the pool and the
    result stores. Transport, logging and the context are left out. */
module ServerRpc {
  import opened Common
  import opened ServerPool
  import opened ServerData
  import AgentRpc

  /** GetProbeResultUid: the six identifying fields concatenated, without
      separators. Timestamp and value are not part of it, so a newer
      measurement of the same series replaces the older one. */
  function ResultUid(prr: ProbeResult): string {
    prr.workerName + prr.metricName + prr.sourceRegion + prr.targetRegion + prr.probeType + prr.targetAddr
  }

  /** Two measurements of one series (same six fields) share a uid. */
  lemma UidIgnoresMeasurement(a: ProbeResult, b: ProbeResult)
    requires a.(timeStamp := b.timeStamp, value := b.value) == b
    ensures ResultUid(a) == ResultUid(b)
  {
  }

  /** Without separators the uid is not injective on the identifying
      fields: two different series can overwrite each other. */
  lemma UidCollides()
    ensures exists a: ProbeResult, b: ProbeResult ::
      a.workerName != b.workerName && ResultUid(a) == ResultUid(b)
  {
    var a := ProbeResult("c", "ab", "", "", "", "", 0, 0.0);
    var b := ProbeResult("bc", "a", "", "", "", "", 0, 0.0);
    assert "ab" + "c" == "abc" == "a" + "bc";
    assert ResultUid(a) == "ab" + "c" + "" + "" + "" + "";
    assert ResultUid(b) == "a" + "bc" + "" + "" + "" + "";
    assert a.workerName != b.workerName by { assert |a.workerName| != |b.workerName|; }
  }

  /** int32(n): two's-complement truncation to 32 bits. */
  function Int32(n: int): (r: int)
    ensures -0x8000_0000 <= r < 0x8000_0000
    ensures (r - n) % 0x1_0000_0000 == 0
    ensures -0x8000_0000 <= n < 0x8000_0000 ==> r == n
  {
    (n + 0x8000_0000) % 0x1_0000_0000 - 0x8000_0000
  }

  /** `r` belongs in the store for `pType` under uid `k`. */
  predicate Hits(r: ProbeResult, pType: string, k: string) {
    r.probeType == pType && ResultUid(r) == k
  }

  /** The store for `pType` after the results, in order, with Store
      overwriting: results of another type do not touch it. */
  function StoreOfType(m: map<string, ProbeResult>, rs: seq<ProbeResult>, pType: string): map<string, ProbeResult> {
    if rs == [] then m
    else
      var n := |rs| - 1;
      var prev := StoreOfType(m, rs[..n], pType);
      if rs[n].probeType == pType then prev[ResultUid(rs[n]) := rs[n]] else prev
  }

  /** A uid is stored after the push exactly when it was stored before or
      some pushed result of the type carries it; the last such result wins,
      and a uid no pushed result carries keeps its old entry. */
  lemma {:induction false} StoreOfTypeSpec(m: map<string, ProbeResult>, rs: seq<ProbeResult>, pType: string, k: string)
    ensures k in StoreOfType(m, rs, pType) <==> k in m || exists i | 0 <= i < |rs| :: Hits(rs[i], pType, k)
    ensures forall i | 0 <= i < |rs| && Hits(rs[i], pType, k) && (forall j | i < j < |rs| :: !Hits(rs[j], pType, k)) ::
      k in StoreOfType(m, rs, pType) && StoreOfType(m, rs, pType)[k] == rs[i]
    ensures (forall i | 0 <= i < |rs| :: !Hits(rs[i], pType, k)) && k in m ==>
      k in StoreOfType(m, rs, pType) && StoreOfType(m, rs, pType)[k] == m[k]
  {
    if rs != [] {
      var n := |rs| - 1;
      var p := rs[..n];
      StoreOfTypeSpec(m, p, pType, k);
      assert forall i | 0 <= i < n :: p[i] == rs[i];
      if exists i | 0 <= i < |rs| :: Hits(rs[i], pType, k) {
        var i :| 0 <= i < |rs| && Hits(rs[i], pType, k);
        if i < n {
          assert Hits(p[i], pType, k);
        }
      }
    }
  }

  /** PushProberResults: store each result under its uid in the icmp or the
      http store by its probe type (other types are counted but stored
      nowhere) and answer with the count, truncated to int32. */
  method PushProberResults(stores: ResultStores, proberResults: seq<ProbeResult>) returns (successNum: int)
    modifies stores
    ensures stores.icmpData == StoreOfType(old(stores.icmpData), proberResults, ProbeTypeIcmp)
    ensures stores.httpData == StoreOfType(old(stores.httpData), proberResults, ProbeTypeHttp)
    ensures successNum == Int32(|proberResults|)
  {
    var suNum := 0;
    for i := 0 to |proberResults|
      invariant stores.icmpData == StoreOfType(old(stores.icmpData), proberResults[..i], ProbeTypeIcmp)
      invariant stores.httpData == StoreOfType(old(stores.httpData), proberResults[..i], ProbeTypeHttp)
      invariant suNum == i
    {
      var prr := proberResults[i];
      assert proberResults[..i + 1][..i] == proberResults[..i];
      var uid := ResultUid(prr);
      if prr.probeType == "icmp" {
        stores.icmpData := stores.icmpData[uid := prr];
      } else if prr.probeType == "http" {
        stores.httpData := stores.httpData[uid := prr];
      }
      suNum := suNum + 1;
    }
    assert proberResults[..|proberResults|] == proberResults;
    successNum := Int32(suNum);
  }

  /** ProberAgentIpReports: record the agent's region under its address and
      answer success; the pool's target views are untouched. */
  method ProberAgentIpReports(pool: TargetPool, req: ProberAgentIpReportRequest) returns (isSuccess: bool)
    requires pool.Valid()
    modifies pool
    ensures pool.Valid()
    ensures pool.roster == old(pool.roster)[req.ip := req.region]
    ensures pool.icmpView == old(pool.icmpView) && pool.otherView == old(pool.otherView)
    ensures isSuccess
  {
    pool.roster := pool.roster[req.ip := req.region];
    isSuccess := true;
  }

  /** End to end: after an agent's heartbeat, the next roster flush leaves
      an icmp entry for the agent's region that lists the agent's address,
      whatever the mesh view held before. */
  lemma HeartbeatReachesMesh(view: map<string, Targets>, roster: map<string, string>,
                             localIp: string, localRegion: string, order: seq<string>)
    requires ValidIcmpView(view)
    requires var req := AgentRpc.ReportRequest(localIp, localRegion);
      IsEnumeration(order, roster[req.ip := req.region].Keys)
    ensures var req := AgentRpc.ReportRequest(localIp, localRegion);
      var mesh := AbsorbAllView(view, Projection(GroupByRegion(order, roster[req.ip := req.region])));
      && localRegion in mesh
      && mesh[localRegion].proberType == ProbeTypeIcmp
      && localIp in mesh[localRegion].target
  {
    var req := AgentRpc.ReportRequest(localIp, localRegion);
    var updated := roster[req.ip := req.region];
    var p := Projection(GroupByRegion(order, updated));
    RosterProjection(order, updated, localRegion);
    assert localIp in updated && updated[localIp] == localRegion;
    assert localRegion in p && localIp in p[localRegion].target;
    AbsorbAllViewSpec(view, p);
  }

  /** GetProberTargets: the targets for the asking agent's region; the
      agent's address plays no part. */
  method GetProberTargets(pool: TargetPool, req: ProberTargetsGetRequest)
    returns (targets: seq<Targets>, ghost icmpOrder: seq<string>, ghost otherOrder: seq<string>)
    requires pool.Valid()
    ensures IsEnumeration(icmpOrder, pool.icmpView.Keys) && IsEnumeration(otherOrder, pool.otherView.Keys)
    ensures targets == IcmpOthers(icmpOrder, pool.icmpView, req.localRegion) + ConcatValues(otherOrder, pool.otherView)
    ensures forall t :: t in targets <==>
      (exists r | r in pool.icmpView :: r != req.localRegion && pool.icmpView[r] == t) ||
      (exists r | r in pool.otherView :: t in pool.otherView[r])
  {
    var region := req.localRegion;
    targets, icmpOrder, otherOrder := pool.GetTargetsByRegion(region);
  }
}
