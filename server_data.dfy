/** The server's aggregator (pkg/server/data_process.go): one pass of
    HttpDataProcess / IcmpDataProcess over a result store (expire entries
    older than the staleness window, group the live values by metric,
    source and target), and dealWithDataMap publishing each group's mean
    to a gauge. The Prometheus gauge vectors are objects holding a map
    from label values to the last value set; the clock is the `now`
    parameter. */
module ServerData {
  import opened Common
  import opened Strings

  /** Seconds after which a stored result is expired. */
  const StalenessWindow: int := 300

  /** `now - timestamp > 300`: a result exactly 300 s old is still live. */
  predicate Expired(now: int, r: ProbeResult) {
    now - r.timeStamp > StalenessWindow
  }

  /** The key of a value group: metric#source#target. */
  function UniqueKey(metricName: string, sourceRegion: string, target: string): (k: string)
    ensures Split(k, '#') == Split(metricName, '#') + Split(sourceRegion, '#') + Split(target, '#')
    ensures |Split(k, '#')| >= 3
  {
    var tail := sourceRegion + ['#'] + target;
    SplitConcat(sourceRegion, '#', target);
    SplitConcat(metricName, '#', tail);
    metricName + ['#'] + tail
  }

  /** The second '_'-field of a metric name, for names containing '_'. */
  function MetricType(metricName: string): (t: Option<string>)
    ensures t.None? <==> '_' !in metricName
  {
    ContainsChar(metricName, '_');
    if Contains(metricName, "_") then
      SplitHasTwo(metricName, '_');
      Some(Split(metricName, '_')[1])
    else None
  }

  /** Append `v` to the group `k`. */
  function Accumulate(m: map<string, seq<real>>, k: string, v: real): map<string, seq<real>> {
    if Lookup(m, k) == [] then m[k := [v]] else m[k := m[k] + [v]]
  }

  /** The variant used for the connect, processing, transfer and interface
      groups: it tests the tls group for emptiness, so the target group is
      restarted with `v` whenever the tls group under `k` is empty. */
  function AccumulateCheckingTls(target: map<string, seq<real>>, tls: map<string, seq<real>>, k: string, v: real): map<string, seq<real>> {
    if Lookup(tls, k) == [] then target[k := [v]] else target[k := Lookup(target, k) + [v]]
  }

  /** The six http groups (resoleMap, tlsMap, connMap, processMap,
      transferMap, interSuccMap). */
  datatype HttpAcc = HttpAcc(
    resolve: map<string, seq<real>>,
    tls: map<string, seq<real>>,
    conn: map<string, seq<real>>,
    process: map<string, seq<real>>,
    transfer: map<string, seq<real>>,
    interSucc: map<string, seq<real>>)

  /** The two icmp groups (latencyMap, packagedropMap). */
  datatype IcmpAcc = IcmpAcc(latency: map<string, seq<real>>, packageDrop: map<string, seq<real>>)

  function EmptyHttpAcc(): HttpAcc {
    HttpAcc(map[], map[], map[], map[], map[], map[])
  }

  function EmptyIcmpAcc(): IcmpAcc {
    IcmpAcc(map[], map[])
  }

  /** The six http cases of the metric type. */
  datatype HttpGroup = Resolve | Tls | Connect | Processing | Transfer | Interface

  /** The case a metric type selects, if any. */
  function HttpGroupOf(metricType: string): Option<HttpGroup> {
    if metricType == "resolveDuration" then Some(Resolve)
    else if metricType == "tlsDuration" then Some(Tls)
    else if metricType == "connectDuration" then Some(Connect)
    else if metricType == "processingDuration" then Some(Processing)
    else if metricType == "transferDuration" then Some(Transfer)
    else if metricType == "interface" then Some(Interface)
    else None
  }

  /** The http case of a metric name: its type field, then the case. */
  function HttpGroupOfName(metricName: string): Option<HttpGroup> {
    match MetricType(metricName)
    case None => None
    case Some(t) => HttpGroupOf(t)
  }

  /** What one live http result adds to the groups: the update of its
      case, if it has one. */
  function HttpStep(acc: HttpAcc, r: ProbeResult): HttpAcc {
    match HttpGroupOfName(r.metricName)
    case None => acc
    case Some(c) => AddToGroup(acc, c, UniqueKey(r.metricName, r.sourceRegion, r.targetAddr), r.value)
  }

  /** The update a result of case `c` makes: resolve and tls append, the
      other four test the tls group under the same key. */
  function AddToGroup(acc: HttpAcc, c: HttpGroup, k: string, v: real): HttpAcc {
    match c
    case Resolve => acc.(resolve := Accumulate(acc.resolve, k, v))
    case Tls => acc.(tls := Accumulate(acc.tls, k, v))
    case Connect => acc.(conn := AccumulateCheckingTls(acc.conn, acc.tls, k, v))
    case Processing => acc.(process := AccumulateCheckingTls(acc.process, acc.tls, k, v))
    case Transfer => acc.(transfer := AccumulateCheckingTls(acc.transfer, acc.tls, k, v))
    case Interface => acc.(interSucc := AccumulateCheckingTls(acc.interSucc, acc.tls, k, v))
  }

  /** What one live icmp result adds to the groups. */
  function IcmpStep(acc: IcmpAcc, r: ProbeResult): IcmpAcc {
    match MetricType(r.metricName)
    case None => acc
    case Some(metricType) =>
      var k := UniqueKey(r.metricName, r.sourceRegion, r.targetRegion);
      if metricType == "latency" then acc.(latency := Accumulate(acc.latency, k, r.value))
      else if metricType == "packageDrop" then acc.(packageDrop := Accumulate(acc.packageDrop, k, r.value))
      else acc
  }

  /** The keys of expired entries, in scan order. */
  function ExpiredKeys(order: seq<string>, data: map<string, ProbeResult>, now: int): seq<string>
    requires forall k | k in order :: k in data
  {
    if order == [] then []
    else
      var n := |order| - 1;
      ExpiredKeys(order[..n], data, now) + (if Expired(now, data[order[n]]) then [order[n]] else [])
  }

  /** The http groups after scanning `order`: expired entries add nothing,
      and every group built can be published. */
  function HttpScan(order: seq<string>, data: map<string, ProbeResult>, now: int): (acc: HttpAcc)
    requires forall k | k in order :: k in data
    ensures HttpPublishable(acc)
  {
    if order == [] then EmptyHttpAcc()
    else
      var n := |order| - 1;
      var acc := HttpScan(order[..n], data, now);
      if Expired(now, data[order[n]]) then acc
      else
        HttpStepPublishable(acc, data[order[n]]);
        HttpStep(acc, data[order[n]])
  }

  /** The icmp groups after scanning `order`. */
  function IcmpScan(order: seq<string>, data: map<string, ProbeResult>, now: int): (acc: IcmpAcc)
    requires forall k | k in order :: k in data
    ensures IcmpPublishable(acc)
  {
    if order == [] then EmptyIcmpAcc()
    else
      var n := |order| - 1;
      var acc := IcmpScan(order[..n], data, now);
      if Expired(now, data[order[n]]) then acc
      else
        IcmpStepPublishable(acc, data[order[n]]);
        IcmpStep(acc, data[order[n]])
  }

  /** The entries a pass keeps. */
  function LiveEntries(data: map<string, ProbeResult>, now: int): (live: map<string, ProbeResult>)
    ensures forall k :: k in live <==> k in data && !Expired(now, data[k])
    ensures forall k | k in live :: live[k] == data[k]
  {
    map k | k in data && !Expired(now, data[k]) :: data[k]
  }

  /** The 300-second boundary: a result stamped now is kept, one stamped
      exactly 300 s ago is still kept, and one stamped 301 s ago is
      dropped. */
  lemma ExpiryBoundary(data: map<string, ProbeResult>, now: int, k: string)
    requires k in data
    ensures data[k].timeStamp >= now - 300 ==> k in LiveEntries(data, now) && LiveEntries(data, now)[k] == data[k]
    ensures data[k].timeStamp == now - 301 ==> k !in LiveEntries(data, now)
  {
  }

  /** The expired list names exactly the expired entries of the scan, each
      once. */
  lemma {:induction false} ExpiredKeysMembers(order: seq<string>, data: map<string, ProbeResult>, now: int)
    requires forall k | k in order :: k in data
    requires NoDup(order)
    ensures forall k :: k in ExpiredKeys(order, data, now) <==> k in order && Expired(now, data[k])
    ensures NoDup(ExpiredKeys(order, data, now))
  {
    if order != [] {
      var n := |order| - 1;
      var p := order[..n];
      assert order == p + [order[n]];
      assert NoDup(p) by {
        assert forall i, j | 0 <= i < j < |p| :: p[i] == order[i] && p[j] == order[j];
      }
      ExpiredKeysMembers(p, data, now);
      assert order[n] !in p;
    }
  }

  // ---------------------------------------------------------------------
  // Well-formedness of the groups: what dealWithDataMap relies on

  /** Every group is non-empty and its key has at least three '#'-pieces. */
  ghost predicate Publishable(m: map<string, seq<real>>) {
    forall k | k in m :: |m[k]| > 0 && |Split(k, '#')| >= 3
  }

  ghost predicate HttpPublishable(acc: HttpAcc) {
    && Publishable(acc.resolve) && Publishable(acc.tls) && Publishable(acc.conn)
    && Publishable(acc.process) && Publishable(acc.transfer) && Publishable(acc.interSucc)
  }

  ghost predicate IcmpPublishable(acc: IcmpAcc) {
    Publishable(acc.latency) && Publishable(acc.packageDrop)
  }

  lemma AccumulatePublishable(m: map<string, seq<real>>, check: map<string, seq<real>>, k: string, v: real)
    requires Publishable(m) && |Split(k, '#')| >= 3
    ensures Publishable(Accumulate(m, k, v))
    ensures Publishable(AccumulateCheckingTls(m, check, k, v))
  {
  }

  /** One http result keeps every group publishable. */
  lemma HttpStepPublishable(acc: HttpAcc, r: ProbeResult)
    requires HttpPublishable(acc)
    ensures HttpPublishable(HttpStep(acc, r))
  {
    var k := UniqueKey(r.metricName, r.sourceRegion, r.targetAddr);
    match HttpGroupOfName(r.metricName)
    case None =>
    case Some(Resolve) => AccumulatePublishable(acc.resolve, acc.tls, k, r.value);
    case Some(Tls) => AccumulatePublishable(acc.tls, acc.tls, k, r.value);
    case Some(Connect) => AccumulatePublishable(acc.conn, acc.tls, k, r.value);
    case Some(Processing) => AccumulatePublishable(acc.process, acc.tls, k, r.value);
    case Some(Transfer) => AccumulatePublishable(acc.transfer, acc.tls, k, r.value);
    case Some(Interface) => AccumulatePublishable(acc.interSucc, acc.tls, k, r.value);
  }

  /** One icmp result keeps both groups publishable. */
  lemma IcmpStepPublishable(acc: IcmpAcc, r: ProbeResult)
    requires IcmpPublishable(acc)
    ensures IcmpPublishable(IcmpStep(acc, r))
  {
    var k := UniqueKey(r.metricName, r.sourceRegion, r.targetRegion);
    AccumulatePublishable(acc.latency, acc.latency, k, r.value);
    AccumulatePublishable(acc.packageDrop, acc.packageDrop, k, r.value);
  }

  // ---------------------------------------------------------------------
  // What one result does to the groups

  /** A name without '_', or whose type field matches no case, leaves every
      group as it was. */
  lemma IgnoredMetrics(acc: HttpAcc, iacc: IcmpAcc, r: ProbeResult)
    ensures '_' !in r.metricName ==> HttpStep(acc, r) == acc && IcmpStep(iacc, r) == iacc
    ensures HttpGroupOfName(r.metricName).None? ==> HttpStep(acc, r) == acc
    ensures MetricType(r.metricName).Some? && MetricType(r.metricName).value != "latency"
            && MetricType(r.metricName).value != "packageDrop"
            ==> IcmpStep(iacc, r) == iacc
  {
  }

  /** Resolve and tls values, and both icmp values, are appended to their
      group: every live value is kept. */
  lemma AccumulatingGroups(acc: HttpAcc, iacc: IcmpAcc, r: ProbeResult)
    ensures var k := UniqueKey(r.metricName, r.sourceRegion, r.targetAddr);
      && (HttpGroupOfName(r.metricName) == Some(Resolve) ==>
            Lookup(HttpStep(acc, r).resolve, k) == Lookup(acc.resolve, k) + [r.value])
      && (HttpGroupOfName(r.metricName) == Some(Tls) ==>
            Lookup(HttpStep(acc, r).tls, k) == Lookup(acc.tls, k) + [r.value])
    ensures var k := UniqueKey(r.metricName, r.sourceRegion, r.targetRegion);
      && (MetricType(r.metricName) == Some("latency") ==>
            Lookup(IcmpStep(iacc, r).latency, k) == Lookup(iacc.latency, k) + [r.value])
      && (MetricType(r.metricName) == Some("packageDrop") ==>
            Lookup(IcmpStep(iacc, r).packageDrop, k) == Lookup(iacc.packageDrop, k) + [r.value])
  {
  }

  /** The tls group only has keys whose metric piece is a tlsDuration name. */
  ghost predicate TlsKeysTyped(acc: HttpAcc) {
    forall k | k in acc.tls :: HttpGroupOfName(Split(k, '#')[0]) == Some(Tls)
  }

  /** The first '#'-piece of a key built from a '#'-free metric name is that
      name. */
  lemma UniqueKeyMetric(m: string, s: string, t: string)
    requires '#' !in m
    ensures Split(UniqueKey(m, s, t), '#')[0] == m
  {
    SplitNoSep(m, '#');
  }

  /** With '#'-free metric names the tls group never holds the key of a
      result of another case. */
  lemma TlsMissesOtherCases(acc: HttpAcc, r: ProbeResult)
    requires TlsKeysTyped(acc) && '#' !in r.metricName
    requires HttpGroupOfName(r.metricName) != Some(Tls)
    ensures UniqueKey(r.metricName, r.sourceRegion, r.targetAddr) !in acc.tls
  {
    var k := UniqueKey(r.metricName, r.sourceRegion, r.targetAddr);
    UniqueKeyMetric(r.metricName, r.sourceRegion, r.targetAddr);
  }

  /** So a connect, processing, transfer or interface value restarts its
      group: after it, the group holds that value alone. */
  lemma CheckedGroupsKeepLast(acc: HttpAcc, r: ProbeResult)
    requires TlsKeysTyped(acc) && '#' !in r.metricName
    ensures var k := UniqueKey(r.metricName, r.sourceRegion, r.targetAddr);
      && (HttpGroupOfName(r.metricName) == Some(Connect) ==> HttpStep(acc, r).conn[k] == [r.value])
      && (HttpGroupOfName(r.metricName) == Some(Processing) ==> HttpStep(acc, r).process[k] == [r.value])
      && (HttpGroupOfName(r.metricName) == Some(Transfer) ==> HttpStep(acc, r).transfer[k] == [r.value])
      && (HttpGroupOfName(r.metricName) == Some(Interface) ==> HttpStep(acc, r).interSucc[k] == [r.value])
  {
    if HttpGroupOfName(r.metricName) != Some(Tls) {
      TlsMissesOtherCases(acc, r);
    }
  }

  /** Only tlsDuration results add tls keys. */
  lemma TlsKeysTypedStep(acc: HttpAcc, r: ProbeResult)
    requires TlsKeysTyped(acc) && '#' !in r.metricName
    ensures TlsKeysTyped(HttpStep(acc, r))
  {
    var k := UniqueKey(r.metricName, r.sourceRegion, r.targetAddr);
    HttpStepTls(acc, r);
    if HttpGroupOfName(r.metricName) == Some(Tls) {
      UniqueKeyMetric(r.metricName, r.sourceRegion, r.targetAddr);
      var tls := Accumulate(acc.tls, k, r.value);
      assert tls.Keys == acc.tls.Keys + {k};
      forall k2 | k2 in tls ensures HttpGroupOfName(Split(k2, '#')[0]) == Some(Tls) {
        if k2 != k {
          assert k2 in acc.tls;
        }
      }
    }
  }

  /** Only a tlsDuration result changes the tls group. */
  lemma HttpStepTls(acc: HttpAcc, r: ProbeResult)
    ensures HttpStep(acc, r).tls ==
      if HttpGroupOfName(r.metricName) == Some(Tls)
      then Accumulate(acc.tls, UniqueKey(r.metricName, r.sourceRegion, r.targetAddr), r.value)
      else acc.tls
  {
    HttpStepGroup(acc, r, Tls);
  }

  /** Over a whole pass with '#'-free metric names the tls group stays
      typed, so the checked groups keep only their last value. */
  lemma {:induction false} HttpScanTlsKeysTyped(order: seq<string>, data: map<string, ProbeResult>, now: int)
    requires forall k | k in order :: k in data && '#' !in data[k].metricName
    ensures TlsKeysTyped(HttpScan(order, data, now))
  {
    if order != [] {
      var n := |order| - 1;
      HttpScanTlsKeysTyped(order[..n], data, now);
      TlsKeysTypedStep(HttpScan(order[..n], data, now), data[order[n]]);
    }
  }

  // ---------------------------------------------------------------------
  // What a whole pass puts in each group

  /** The group of `acc` that case `g` fills. */
  function GroupOf(acc: HttpAcc, g: HttpGroup): map<string, seq<real>> {
    match g
    case Resolve => acc.resolve
    case Tls => acc.tls
    case Connect => acc.conn
    case Processing => acc.process
    case Transfer => acc.transfer
    case Interface => acc.interSucc
  }

  /** The values, in scan order, of the live http results of `order` whose
      metric falls in case `g` and whose key is `k`. */
  function HttpSeries(order: seq<string>, data: map<string, ProbeResult>, now: int, g: HttpGroup, k: string): seq<real>
    requires forall x | x in order :: x in data
  {
    if order == [] then []
    else
      var n := |order| - 1;
      var r := data[order[n]];
      HttpSeries(order[..n], data, now, g, k) +
        (if !Expired(now, r) && HttpGroupOfName(r.metricName) == Some(g)
            && UniqueKey(r.metricName, r.sourceRegion, r.targetAddr) == k
         then [r.value] else [])
  }

  /** The values, in scan order, of the live icmp results of `order` whose
      metric type is `metricType` and whose key is `k`. */
  function IcmpSeries(order: seq<string>, data: map<string, ProbeResult>, now: int, metricType: string, k: string): seq<real>
    requires forall x | x in order :: x in data
  {
    if order == [] then []
    else
      var n := |order| - 1;
      var r := data[order[n]];
      IcmpSeries(order[..n], data, now, metricType, k) +
        (if !Expired(now, r) && MetricType(r.metricName) == Some(metricType)
            && UniqueKey(r.metricName, r.sourceRegion, r.targetRegion) == k
         then [r.value] else [])
  }

  /** The last element of a series, as a one-element group, or nothing. */
  function LastValue(xs: seq<real>): seq<real> {
    if xs == [] then [] else [xs[|xs| - 1]]
  }

  /** What one accumulation does to the group under another or the same key. */
  lemma LookupAccumulate(m: map<string, seq<real>>, tls: map<string, seq<real>>, k': string, v: real, k: string)
    ensures Lookup(Accumulate(m, k', v), k) == Lookup(m, k) + (if k' == k then [v] else [])
    ensures k' != k ==> Lookup(AccumulateCheckingTls(m, tls, k', v), k) == Lookup(m, k)
    ensures k' == k && Lookup(tls, k) == [] ==> Lookup(AccumulateCheckingTls(m, tls, k', v), k) == [v]
  {
  }

  /** One http result changes only the group of its own case. */
  lemma HttpStepGroup(acc: HttpAcc, r: ProbeResult, g: HttpGroup)
    ensures var k := UniqueKey(r.metricName, r.sourceRegion, r.targetAddr);
      GroupOf(HttpStep(acc, r), g) ==
        if HttpGroupOfName(r.metricName) != Some(g) then GroupOf(acc, g)
        else if g == Resolve || g == Tls then Accumulate(GroupOf(acc, g), k, r.value)
        else AccumulateCheckingTls(GroupOf(acc, g), acc.tls, k, r.value)
  {
    var c := HttpGroupOfName(r.metricName);
    if c.Some? {
      AddToGroupOnly(acc, c.value, UniqueKey(r.metricName, r.sourceRegion, r.targetAddr), r.value, g);
    }
  }

  /** A case's update changes its own group only: resolve and tls append,
      the other cases use the tls-checking variant. */
  lemma AddToGroupOnly(acc: HttpAcc, c: HttpGroup, k: string, v: real, g: HttpGroup)
    ensures GroupOf(AddToGroup(acc, c, k, v), g) ==
      if c != g then GroupOf(acc, g)
      else if g == Resolve || g == Tls then Accumulate(GroupOf(acc, g), k, v)
      else AccumulateCheckingTls(GroupOf(acc, g), acc.tls, k, v)
  {
  }

  /** One icmp result appends its value to its own group under its own key. */
  lemma IcmpStepLookup(acc: IcmpAcc, r: ProbeResult, k: string)
    ensures var k' := UniqueKey(r.metricName, r.sourceRegion, r.targetRegion);
      && Lookup(IcmpStep(acc, r).latency, k) ==
           Lookup(acc.latency, k) + (if MetricType(r.metricName) == Some("latency") && k' == k then [r.value] else [])
      && Lookup(IcmpStep(acc, r).packageDrop, k) ==
           Lookup(acc.packageDrop, k) + (if MetricType(r.metricName) == Some("packageDrop") && k' == k then [r.value] else [])
  {
    var k' := UniqueKey(r.metricName, r.sourceRegion, r.targetRegion);
    LookupAccumulate(acc.latency, acc.latency, k', r.value, k);
    LookupAccumulate(acc.packageDrop, acc.packageDrop, k', r.value, k);
    match MetricType(r.metricName)
    case None =>
    case Some(t) =>
      if t == "latency" {
        assert "latency"[0] != "packageDrop"[0];
      }
  }

  /** Over a whole pass, the resolve and tls groups under `k` hold every
      live value of their series, in scan order. */
  lemma {:induction false} HttpScanAccumulates(order: seq<string>, data: map<string, ProbeResult>, now: int,
                                               g: HttpGroup, k: string)
    requires forall x | x in order :: x in data
    requires g == Resolve || g == Tls
    ensures Lookup(GroupOf(HttpScan(order, data, now), g), k) == HttpSeries(order, data, now, g, k)
  {
    if order != [] {
      var n := |order| - 1;
      var r := data[order[n]];
      var acc := HttpScan(order[..n], data, now);
      HttpScanAccumulates(order[..n], data, now, g, k);
      if !Expired(now, r) {
        HttpStepGroup(acc, r, g);
        LookupAccumulate(GroupOf(acc, g), acc.tls, UniqueKey(r.metricName, r.sourceRegion, r.targetAddr), r.value, k);
      }
    }
  }

  /** Over a whole pass with '#'-free metric names, the connect,
      processing, transfer and interface groups under `k` hold only the
      last live value of their series (nothing when there is none). */
  lemma {:induction false} HttpScanKeepsLast(order: seq<string>, data: map<string, ProbeResult>, now: int,
                                             g: HttpGroup, k: string)
    requires forall x | x in order :: x in data && '#' !in data[x].metricName
    requires g != Resolve && g != Tls
    ensures Lookup(GroupOf(HttpScan(order, data, now), g), k) == LastValue(HttpSeries(order, data, now, g, k))
  {
    if order != [] {
      var n := |order| - 1;
      var r := data[order[n]];
      var acc := HttpScan(order[..n], data, now);
      var s := HttpSeries(order[..n], data, now, g, k);
      HttpScanKeepsLast(order[..n], data, now, g, k);
      if !Expired(now, r) {
        var k' := UniqueKey(r.metricName, r.sourceRegion, r.targetAddr);
        HttpStepGroup(acc, r, g);
        if HttpGroupOfName(r.metricName) == Some(g) {
          HttpScanTlsKeysTyped(order[..n], data, now);
          TlsMissesOtherCases(acc, r);
          LookupAccumulate(GroupOf(acc, g), acc.tls, k', r.value, k);
          if k' == k {
            assert LastValue(s + [r.value]) == [r.value];
          } else {
            assert s + [] == s;
          }
        } else {
          assert s + [] == s;
        }
      } else {
        assert s + [] == s;
      }
    }
  }

  /** Over a whole pass, the latency and packageDrop groups under `k` hold
      every live value of their series, in scan order. */
  lemma {:induction false} IcmpScanAccumulates(order: seq<string>, data: map<string, ProbeResult>, now: int, k: string)
    requires forall x | x in order :: x in data
    ensures Lookup(IcmpScan(order, data, now).latency, k) == IcmpSeries(order, data, now, "latency", k)
    ensures Lookup(IcmpScan(order, data, now).packageDrop, k) == IcmpSeries(order, data, now, "packageDrop", k)
  {
    if order != [] {
      var n := |order| - 1;
      var r := data[order[n]];
      var acc := IcmpScan(order[..n], data, now);
      IcmpScanAccumulates(order[..n], data, now, k);
      if !Expired(now, r) {
        IcmpStepLookup(acc, r, k);
      }
    }
  }

  // ---------------------------------------------------------------------
  // Means

  function Sum(xs: seq<real>): real {
    if xs == [] then 0.0 else Sum(xs[..|xs| - 1]) + xs[|xs| - 1]
  }

  /** The arithmetic mean of a non-empty group. */
  function Mean(xs: seq<real>): real
    requires |xs| > 0
  {
    Sum(xs) / (|xs| as real)
  }

  /** The sum loop of dealWithDataMap. */
  method SumValues(datas: seq<real>) returns (sum: real)
    ensures sum == Sum(datas)
  {
    sum := 0.0;
    var i := 0;
    while i < |datas|
      invariant 0 <= i <= |datas|
      invariant sum == Sum(datas[..i])
    {
      assert datas[..i + 1][..i] == datas[..i];
      sum := sum + datas[i];
      i := i + 1;
    }
    assert datas[..i] == datas;
  }

  lemma {:induction false} SumBounds(xs: seq<real>, lo: real, hi: real)
    requires forall i | 0 <= i < |xs| :: lo <= xs[i] <= hi
    ensures (|xs| as real) * lo <= Sum(xs) <= (|xs| as real) * hi
  {
    if xs != [] {
      var n := |xs| - 1;
      SumBounds(xs[..n], lo, hi);
    }
  }

  /** The mean lies between the least and the greatest value; a single
      value is its own mean. */
  lemma MeanBounds(xs: seq<real>, lo: real, hi: real)
    requires |xs| > 0
    requires forall i | 0 <= i < |xs| :: lo <= xs[i] <= hi
    ensures lo <= Mean(xs) <= hi
    ensures |xs| == 1 ==> Mean(xs) == xs[0]
  {
    SumBounds(xs, lo, hi);
    var n := |xs| as real;
    assert n * lo <= Sum(xs) <= n * hi;
    assert lo == (n * lo) / n && hi == (n * hi) / n;
    if |xs| == 1 {
      assert xs[..0] == [];
    }
  }

  /** Values 10, 20 and 30 for one key publish 20. */
  lemma MeanExample()
    ensures Mean([10.0, 20.0, 30.0]) == 20.0
  {
    var xs := [10.0, 20.0, 30.0];
    assert [10.0][..0] == [];
    assert Sum([10.0]) == 10.0;
    assert [10.0, 20.0][..1] == [10.0];
    assert Sum([10.0, 20.0]) == 30.0;
    assert xs[..2] == [10.0, 20.0];
    assert Sum(xs) == 60.0;
  }

  // ---------------------------------------------------------------------
  // Publishing

  /** The label values of a group key: its second and third '#'-pieces
      (source_region, then addr or target_region). */
  function LabelsOf(k: string): (string, string)
    requires |Split(k, '#')| >= 3
  {
    (Split(k, '#')[1], Split(k, '#')[2])
  }

  /** A key built from '#'-free pieces labels its own source and target. */
  lemma LabelsOfUniqueKey(m: string, s: string, t: string)
    requires '#' !in m && '#' !in s && '#' !in t
    ensures LabelsOf(UniqueKey(m, s, t)) == (s, t)
  {
    SplitNoSep(m, '#');
    SplitNoSep(s, '#');
    SplitNoSep(t, '#');
  }

  /** The label names of the http vectors and of the icmp vectors. */
  const HttpLabelNames: (string, string) := ("source_region", "addr")
  const IcmpLabelNames: (string, string) := ("source_region", "target_region")

  /** prometheus.GaugeVec: label values (in the order of `labelNames`) to
      the value last set. */
  class GaugeVec {
    const name: string
    const labelNames: (string, string)
    var values: map<(string, string), real>

    constructor (name: string, labelNames: (string, string))
      ensures this.name == name && this.labelNames == labelNames && values == map[]
    {
      this.name := name;
      this.labelNames := labelNames;
      values := map[];
    }

    /** With(labels).Set(v) */
    method Set(labels: (string, string), v: real)
      modifies this
      ensures values == old(values)[labels := v]
    {
      values := values[labels := v];
    }
  }

  /** The vectors NewMetrics registers, one per metric name. */
  class Gauges {
    const pingLatency: GaugeVec
    const pingPackageDrop: GaugeVec
    const httpInterfaceSuccess: GaugeVec
    const httpResolveDuration: GaugeVec
    const httpTlsDuration: GaugeVec
    const httpConnectDuration: GaugeVec
    const httpProcessingDuration: GaugeVec
    const httpTransferDuration: GaugeVec

    /** The six http vectors are distinct objects, and so are the two
        icmp vectors. */
    ghost predicate Distinct()
      reads this
    {
      var v := [httpResolveDuration, httpTlsDuration, httpConnectDuration,
                httpProcessingDuration, httpTransferDuration, httpInterfaceSuccess];
      && v[0] != v[1] && v[0] != v[2] && v[0] != v[3] && v[0] != v[4] && v[0] != v[5]
      && v[1] != v[2] && v[1] != v[3] && v[1] != v[4] && v[1] != v[5]
      && v[2] != v[3] && v[2] != v[4] && v[2] != v[5]
      && v[3] != v[4] && v[3] != v[5]
      && v[4] != v[5]
      && pingLatency != pingPackageDrop
    }

    constructor ()
      ensures Distinct()
      ensures pingLatency.name == MetricsNamePingLatency && pingPackageDrop.name == MetricsNamePingPackageDrop
      ensures httpInterfaceSuccess.name == MetricsNameHttpInterfaceSuccess
      ensures httpResolveDuration.name == MetricsNameHttpResolvedurationMillonseconds
      ensures httpTlsDuration.name == MetricsNameHttpTlsDurationMillonseconds
      ensures httpConnectDuration.name == MetricsNameHttpConnectDurationMillonseconds
      ensures httpProcessingDuration.name == MetricsNameHttpProcessingDurationMillonseconds
      ensures httpTransferDuration.name == MetricsNameHttpTransferDurationMillonseconds
      ensures pingLatency.labelNames == IcmpLabelNames && pingPackageDrop.labelNames == IcmpLabelNames
      ensures httpInterfaceSuccess.labelNames == HttpLabelNames && httpResolveDuration.labelNames == HttpLabelNames
      ensures httpTlsDuration.labelNames == HttpLabelNames && httpConnectDuration.labelNames == HttpLabelNames
      ensures httpProcessingDuration.labelNames == HttpLabelNames && httpTransferDuration.labelNames == HttpLabelNames
    {
      pingLatency := new GaugeVec(MetricsNamePingLatency, IcmpLabelNames);
      pingPackageDrop := new GaugeVec(MetricsNamePingPackageDrop, IcmpLabelNames);
      httpInterfaceSuccess := new GaugeVec(MetricsNameHttpInterfaceSuccess, HttpLabelNames);
      httpResolveDuration := new GaugeVec(MetricsNameHttpResolvedurationMillonseconds, HttpLabelNames);
      httpTlsDuration := new GaugeVec(MetricsNameHttpTlsDurationMillonseconds, HttpLabelNames);
      httpConnectDuration := new GaugeVec(MetricsNameHttpConnectDurationMillonseconds, HttpLabelNames);
      httpProcessingDuration := new GaugeVec(MetricsNameHttpProcessingDurationMillonseconds, HttpLabelNames);
      httpTransferDuration := new GaugeVec(MetricsNameHttpTransferDurationMillonseconds, HttpLabelNames);
    }
  }

  /** Some key among `keys` carries the label values `l`. */
  ghost predicate Labelled(m: map<string, seq<real>>, keys: set<string>, l: (string, string))
    requires Publishable(m) && keys <= m.Keys
  {
    exists k | k in keys :: LabelsOf(k) == l
  }

  /** `after` is `before` with the groups `keys` of `m` published: every
      such group's labels are set, each set label holds the mean of a group
      carrying it, and labels of no such group are untouched (neither reset
      nor removed). */
  ghost predicate PublishedFrom(before: map<(string, string), real>, after: map<(string, string), real>,
                                m: map<string, seq<real>>, keys: set<string>)
    requires Publishable(m) && keys <= m.Keys
  {
    && (forall k | k in keys :: LabelsOf(k) in after)
    && (forall l | l in after && Labelled(m, keys, l) ::
          exists k | k in keys :: LabelsOf(k) == l && after[l] == Mean(m[k]))
    && (forall l | !Labelled(m, keys, l) :: (l in after <==> l in before) && (l in before ==> after[l] == before[l]))
  }

  /** dealWithDataMap: publish the mean of every group, in map order, under
      its labels; a `pType` other than "http" and "icmp" sets nothing. */
  method DealWithDataMap(dataM: map<string, seq<real>>, vec: GaugeVec, pType: string)
    requires Publishable(dataM)
    modifies vec
    ensures pType == "http" || pType == "icmp" ==> PublishedFrom(old(vec.values), vec.values, dataM, dataM.Keys)
    ensures pType != "http" && pType != "icmp" ==> vec.values == old(vec.values)
  {
    var rest := dataM.Keys;
    while rest != {}
      invariant rest <= dataM.Keys
      invariant pType == "http" || pType == "icmp" ==> PublishedFrom(old(vec.values), vec.values, dataM, dataM.Keys - rest)
      invariant pType != "http" && pType != "icmp" ==> vec.values == old(vec.values)
      decreases rest
    {
      var uniqueKey :| uniqueKey in rest;
      var labels := LabelsOf(uniqueKey);
      var datas := dataM[uniqueKey];
      var sum := SumValues(datas);
      var avg := sum / (|datas| as real);
      ghost var done := dataM.Keys - rest;
      ghost var before := vec.values;
      if pType == "http" || pType == "icmp" {
        vec.Set(labels, avg);
        PublishStep(old(vec.values), before, vec.values, dataM, done, uniqueKey);
      }
      rest := rest - {uniqueKey};
      assert dataM.Keys - rest == done + {uniqueKey};
    }
  }

  lemma PublishStep(origin: map<(string, string), real>, before: map<(string, string), real>,
                    after: map<(string, string), real>, m: map<string, seq<real>>, done: set<string>, k: string)
    requires Publishable(m) && done <= m.Keys && k in m && k !in done
    requires PublishedFrom(origin, before, m, done)
    requires after == before[LabelsOf(k) := Mean(m[k])]
    ensures PublishedFrom(origin, after, m, done + {k})
  {
    var l0 := LabelsOf(k);
    forall l | l in after && Labelled(m, done + {k}, l)
      ensures exists k' | k' in done + {k} :: LabelsOf(k') == l && after[l] == Mean(m[k'])
    {
      if l == l0 {
        assert LabelsOf(k) == l && after[l] == Mean(m[k]);
      } else {
        var k' :| k' in done + {k} && LabelsOf(k') == l;
        assert Labelled(m, done, l);
        var k2 :| k2 in done && LabelsOf(k2) == l && before[l] == Mean(m[k2]);
      }
    }
    forall l | !Labelled(m, done + {k}, l)
      ensures (l in after <==> l in origin) && (l in origin ==> after[l] == origin[l])
    {
      assert l != l0;
      assert !Labelled(m, done, l);
    }
  }

  /** A group whose labels no other group shares publishes exactly its own
      mean. */
  lemma PublishedUnique(before: map<(string, string), real>, after: map<(string, string), real>,
                        m: map<string, seq<real>>, k: string)
    requires Publishable(m) && k in m
    requires PublishedFrom(before, after, m, m.Keys)
    requires forall k2 | k2 in m && LabelsOf(k2) == LabelsOf(k) :: k2 == k
    ensures after[LabelsOf(k)] == Mean(m[k])
  {
    assert Labelled(m, m.Keys, LabelsOf(k));
  }

  // ---------------------------------------------------------------------
  // The passes

  /** The raw stores IcmpDataMap and HttpDataMap: result uid to result. */
  class ResultStores {
    var icmpData: map<string, ProbeResult>
    var httpData: map<string, ProbeResult>

    constructor ()
      ensures icmpData == map[] && httpData == map[]
    {
      icmpData := map[];
      httpData := map[];
    }

    /** The Range over HttpDataMap: collect the expired keys and build the
      groups, in map order. */
    method ScanHttp(now: int) returns (expireds: seq<string>, acc: HttpAcc, ghost order: seq<string>)
      ensures IsEnumeration(order, httpData.Keys)
      ensures expireds == ExpiredKeys(order, httpData, now)
      ensures forall k :: k in expireds <==> k in httpData && Expired(now, httpData[k])
      ensures NoDup(expireds)
      ensures acc == HttpScan(order, httpData, now)
    {
      expireds := [];
      acc := EmptyHttpAcc();
      order := [];
      var rest := httpData.Keys;
      while rest != {}
        invariant rest <= httpData.Keys
        invariant NoDup(order)
        invariant forall x | x in order :: x in httpData && x !in rest
        invariant forall x | x in httpData && x !in rest :: x in order
        invariant expireds == ExpiredKeys(order, httpData, now)
        invariant acc == HttpScan(order, httpData, now)
        decreases rest
      {
        var key :| key in rest;
        var va := httpData[key];
        assert (order + [key])[..|order|] == order;
        if now - va.timeStamp > 300 {
          expireds := expireds + [key];
        } else {
          acc := HttpStep(acc, va);
        }
        order := order + [key];
        rest := rest - {key};
      }
      ExpiredKeysMembers(order, httpData, now);
    }

    /** The Range over IcmpDataMap. */
    method ScanIcmp(now: int) returns (expireds: seq<string>, acc: IcmpAcc, ghost order: seq<string>)
      ensures IsEnumeration(order, icmpData.Keys)
      ensures expireds == ExpiredKeys(order, icmpData, now)
      ensures forall k :: k in expireds <==> k in icmpData && Expired(now, icmpData[k])
      ensures NoDup(expireds)
      ensures acc == IcmpScan(order, icmpData, now)
    {
      expireds := [];
      acc := EmptyIcmpAcc();
      order := [];
      var rest := icmpData.Keys;
      while rest != {}
        invariant rest <= icmpData.Keys
        invariant NoDup(order)
        invariant forall x | x in order :: x in icmpData && x !in rest
        invariant forall x | x in icmpData && x !in rest :: x in order
        invariant expireds == ExpiredKeys(order, icmpData, now)
        invariant acc == IcmpScan(order, icmpData, now)
        decreases rest
      {
        var key :| key in rest;
        var va := icmpData[key];
        assert (order + [key])[..|order|] == order;
        if now - va.timeStamp > 300 {
          expireds := expireds + [key];
        } else {
          acc := IcmpStep(acc, va);
        }
        order := order + [key];
        rest := rest - {key};
      }
      ExpiredKeysMembers(order, icmpData, now);
    }

    /** The delete loops: drop every listed key from the http store. */
    method DeleteHttp(expireds: seq<string>)
      modifies this
      ensures httpData == map k | k in old(httpData) && k !in expireds :: old(httpData)[k]
      ensures icmpData == old(icmpData)
    {
      var i := 0;
      while i < |expireds|
        invariant 0 <= i <= |expireds|
        invariant httpData == map k | k in old(httpData) && k !in expireds[..i] :: old(httpData)[k]
        invariant icmpData == old(icmpData)
      {
        assert expireds[..i + 1] == expireds[..i] + [expireds[i]];
        httpData := httpData - {expireds[i]};
        i := i + 1;
      }
      assert expireds[..i] == expireds;
    }

    method DeleteIcmp(expireds: seq<string>)
      modifies this
      ensures icmpData == map k | k in old(icmpData) && k !in expireds :: old(icmpData)[k]
      ensures httpData == old(httpData)
    {
      var i := 0;
      while i < |expireds|
        invariant 0 <= i <= |expireds|
        invariant icmpData == map k | k in old(icmpData) && k !in expireds[..i] :: old(icmpData)[k]
        invariant httpData == old(httpData)
      {
        assert expireds[..i + 1] == expireds[..i] + [expireds[i]];
        icmpData := icmpData - {expireds[i]};
        i := i + 1;
      }
      assert expireds[..i] == expireds;
    }
  }

  /** Deleting exactly the expired keys leaves exactly the live entries. */
  lemma DeleteExpiredLeavesLive(data: map<string, ProbeResult>, order: seq<string>, now: int)
    requires IsEnumeration(order, data.Keys)
    ensures (map k | k in data && k !in ExpiredKeys(order, data, now) :: data[k]) == LiveEntries(data, now)
  {
    ExpiredKeysMembers(order, data, now);
  }

  /** HttpDataProcess: one pass over the http store. Expired entries are
      deleted, the live ones stay, and each of the six groups is published
      to its gauge; the icmp store and gauges are untouched. */
  method HttpDataProcess(stores: ResultStores, g: Gauges, now: int) returns (ghost order: seq<string>, ghost acc: HttpAcc)
    requires g.Distinct()
    modifies stores, g.httpResolveDuration, g.httpConnectDuration, g.httpTlsDuration,
             g.httpProcessingDuration, g.httpTransferDuration, g.httpInterfaceSuccess
    ensures IsEnumeration(order, old(stores.httpData).Keys)
    ensures acc == HttpScan(order, old(stores.httpData), now)
    ensures stores.httpData == LiveEntries(old(stores.httpData), now)
    ensures stores.icmpData == old(stores.icmpData)
    ensures PublishedFrom(old(g.httpResolveDuration.values), g.httpResolveDuration.values, acc.resolve, acc.resolve.Keys)
    ensures PublishedFrom(old(g.httpConnectDuration.values), g.httpConnectDuration.values, acc.conn, acc.conn.Keys)
    ensures PublishedFrom(old(g.httpTlsDuration.values), g.httpTlsDuration.values, acc.tls, acc.tls.Keys)
    ensures PublishedFrom(old(g.httpProcessingDuration.values), g.httpProcessingDuration.values, acc.process, acc.process.Keys)
    ensures PublishedFrom(old(g.httpTransferDuration.values), g.httpTransferDuration.values, acc.transfer, acc.transfer.Keys)
    ensures PublishedFrom(old(g.httpInterfaceSuccess.values), g.httpInterfaceSuccess.values, acc.interSucc, acc.interSucc.Keys)
  {
    var expireds, a;
    expireds, a, order := stores.ScanHttp(now);
    acc := a;
    DeleteExpiredLeavesLive(stores.httpData, order, now);
    stores.DeleteHttp(expireds);
    DealWithDataMap(a.resolve, g.httpResolveDuration, "http");
    DealWithDataMap(a.conn, g.httpConnectDuration, "http");
    DealWithDataMap(a.tls, g.httpTlsDuration, "http");
    DealWithDataMap(a.process, g.httpProcessingDuration, "http");
    DealWithDataMap(a.transfer, g.httpTransferDuration, "http");
    DealWithDataMap(a.interSucc, g.httpInterfaceSuccess, "http");
  }

  /** IcmpDataProcess: one pass over the icmp store. */
  method IcmpDataProcess(stores: ResultStores, g: Gauges, now: int) returns (ghost order: seq<string>, ghost acc: IcmpAcc)
    requires g.Distinct()
    modifies stores, g.pingLatency, g.pingPackageDrop
    ensures IsEnumeration(order, old(stores.icmpData).Keys)
    ensures acc == IcmpScan(order, old(stores.icmpData), now)
    ensures stores.icmpData == LiveEntries(old(stores.icmpData), now)
    ensures stores.httpData == old(stores.httpData)
    ensures PublishedFrom(old(g.pingLatency.values), g.pingLatency.values, acc.latency, acc.latency.Keys)
    ensures PublishedFrom(old(g.pingPackageDrop.values), g.pingPackageDrop.values, acc.packageDrop, acc.packageDrop.Keys)
  {
    var expireds, a;
    expireds, a, order := stores.ScanIcmp(now);
    acc := a;
    DeleteExpiredLeavesLive(stores.icmpData, order, now);
    stores.DeleteIcmp(expireds);
    DealWithDataMap(a.latency, g.pingLatency, "icmp");
    DealWithDataMap(a.packageDrop, g.pingPackageDrop, "icmp");
  }
}
