/** Shared vocabulary of the prober: the measurement record, the target
    descriptor, the metric names, and sequence helpers used to describe
    the (unordered) iteration over Go maps. */
module Common {

  datatype Option<T> = None | Some(value: T)

  /** An error return of a call the model cannot see (RPC, DNS, ...). */
  datatype Result<T> = Ok(value: T) | Err(msg: string)

  /** pb.ProberResultOne: one measurement. `value` is a float32 in the
      source; it is a real here. */
  datatype ProbeResult = ProbeResult(
    metricName: string,
    workerName: string,
    sourceRegion: string,
    targetRegion: string,
    probeType: string,
    targetAddr: string,
    timeStamp: int,
    value: real)

  /** pb.Targets (and the configuration's Targets, which has the same
      fields): the addresses of one region probed with one prober type. */
  datatype Targets = Targets(region: string, proberType: string, target: seq<string>)

  /** pb.ProberTargetsGetRequest: an agent asking for its targets. */
  datatype ProberTargetsGetRequest = ProberTargetsGetRequest(localRegion: string, localIp: string)

  /** pb.ProberAgentIpReportRequest: an agent's heartbeat. */
  datatype ProberAgentIpReportRequest = ProberAgentIpReportRequest(ip: string, region: string)

  const ProbeTypeIcmp: string := "icmp"
  const ProbeTypeHttp: string := "http"

  // Metric names (module_type_unit).
  const MetricsNamePingLatency: string := "ping_latency_millonseconds"
  const MetricsNamePingPackageDrop: string := "ping_packageDrop_rate"
  const MetricsNamePingTargetSuccess: string := "ping_target_success"
  const MetricsNameHttpResolvedurationMillonseconds: string := "http_resolveDuration_millonseconds"
  const MetricsNameHttpTlsDurationMillonseconds: string := "http_tlsDuration_millonseconds"
  const MetricsNameHttpConnectDurationMillonseconds: string := "http_connectDuration_millonseconds"
  const MetricsNameHttpProcessingDurationMillonseconds: string := "http_processingDuration_millonseconds"
  const MetricsNameHttpTransferDurationMillonseconds: string := "http_transferDuration_millonseconds"
  const MetricsNameHttpInterfaceSuccess: string := "http_interface_success"

  /** No element occurs twice. */
  predicate NoDup<T(==)>(s: seq<T>) {
    forall i, j | 0 <= i < j < |s| :: s[i] != s[j]
  }

  /** `order` lists every element of `keys` exactly once: one possible
      iteration order of a Go map (or sync.Map) whose key set is `keys`. */
  predicate IsEnumeration<T(==)>(order: seq<T>, keys: set<T>) {
    && NoDup(order)
    && (forall x | x in order :: x in keys)
    && (forall x | x in keys :: x in order)
  }

  /** Value of `m` at `k`, or the empty sequence: Go's `m[k]` on a map of slices. */
  function Lookup<K, V>(m: map<K, seq<V>>, k: K): seq<V> {
    if k in m then m[k] else []
  }

  /** The concatenation of the slices stored under `order`, in that order:
      what `append(prs, v...)` inside a map Range builds. */
  function ConcatValues<K, V>(order: seq<K>, m: map<K, seq<V>>): seq<V>
    requires forall k | k in order :: k in m
  {
    if order == [] then []
    else ConcatValues(order[..|order| - 1], m) + m[order[|order| - 1]]
  }

  /** Everything in the concatenation comes from one of the slices, and
      every element of every enumerated slice is in the concatenation. */
  lemma {:induction false} ConcatValuesMembers<K, V>(order: seq<K>, m: map<K, seq<V>>, x: V)
    requires forall k | k in order :: k in m
    ensures x in ConcatValues(order, m) <==> exists k :: k in order && x in m[k]
  {
    if order != [] {
      var prefix := order[..|order| - 1];
      var last := order[|order| - 1];
      ConcatValuesMembers(prefix, m, x);
      assert x in ConcatValues(order, m) <==> x in ConcatValues(prefix, m) || x in m[last];
      if x in m[last] {
        assert last in order;
      }
      if exists k :: k in order && x in m[k] {
        var k :| k in order && x in m[k];
        if k != last {
          assert k in prefix by {
            var i :| 0 <= i < |order| && order[i] == k;
            assert i < |order| - 1;
            assert prefix[i] == k;
          }
        }
      }
      forall k | k in prefix ensures k in order {
        var i :| 0 <= i < |prefix| && prefix[i] == k;
        assert order[i] == k;
      }
    }
  }

  /** The concatenation is empty exactly when every enumerated slice is. */
  lemma {:induction false} ConcatValuesEmpty<K, V>(order: seq<K>, m: map<K, seq<V>>)
    requires forall k | k in order :: k in m
    ensures ConcatValues(order, m) == [] <==> forall k | k in order :: m[k] == []
  {
    if order != [] {
      var prefix := order[..|order| - 1];
      ConcatValuesEmpty(prefix, m);
      forall k | k in prefix ensures k in order {
        var i :| 0 <= i < |prefix| && prefix[i] == k;
        assert order[i] == k;
      }
      if forall k | k in order :: m[k] == [] {
        assert forall k | k in prefix :: m[k] == [];
      }
      if ConcatValues(order, m) == [] {
        forall k | k in order ensures m[k] == [] {
          var i :| 0 <= i < |order| && order[i] == k;
          if i < |order| - 1 {
            assert prefix[i] == k;
          }
        }
      }
    }
  }
}
