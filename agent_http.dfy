/** The HTTP probe (pkg/agent/http.go) without its network I/O: URL scheme
    defaulting, the address-family choice of chooseProtocol, the rewrite of
    the URL host to the resolved IP, the redirect bookkeeping of the custom
    transport, and the shape of the batch ProbeHTTP returns for each way
    the probe can end. url.Parse, net.SplitHostPort, the DNS lookup, the
    client constructors, http.NewRequest and client.Do are inputs; the
    timing values computed from the traces are passed in whole. */
module AgentHttp {
  import opened Common
  import opened Strings

  // ---------------------------------------------------------------------
  // Target URL

  /** The target address with "http://" put in front unless it already
      starts with "http://" or "https://". */
  function WithScheme(addr: string): (target: string)
    ensures HasPrefix(target, "http://") || HasPrefix(target, "https://")
  {
    if !HasPrefix(addr, "http://") && !HasPrefix(addr, "https://") then "http://" + addr else addr
  }

  /** An address with a scheme is kept; any other gets "http://" in front,
      and defaulting twice is defaulting once. */
  lemma WithSchemeCases(addr: string)
    ensures HasPrefix(addr, "http://") || HasPrefix(addr, "https://") ==> WithScheme(addr) == addr
    ensures !HasPrefix(addr, "http://") && !HasPrefix(addr, "https://") ==> WithScheme(addr) == "http://" + addr
    ensures WithScheme(WithScheme(addr)) == WithScheme(addr)
  {
  }

  // ---------------------------------------------------------------------
  // chooseProtocol

  /** A resolved address: its text form and whether it is an IPv4 address
      (IP.To4() != nil). */
  datatype IpAddr = IpAddr(text: string, isV4: bool)

  /** The family chooseProtocol looks for: "ip6" for "ip6" or "", "ip4" for
      anything else. Returns whether IPv4 is wanted. */
  function WantsV4(ipProtocol: string): (v4: bool)
    ensures !v4 <==> ipProtocol == "ip6" || ipProtocol == ""
  {
    !(ipProtocol == "ip6" || ipProtocol == "")
  }

  /** The first address of the wanted family, if any. */
  function FirstOfFamily(ips: seq<IpAddr>, v4: bool): (r: Option<IpAddr>)
    ensures r.None? <==> forall i | 0 <= i < |ips| :: ips[i].isV4 != v4
    ensures r.Some? ==> exists i | 0 <= i < |ips| :: ips[i] == r.value && r.value.isV4 == v4 &&
                          forall j | 0 <= j < i :: ips[j].isV4 != v4
  {
    if ips == [] then None
    else if ips[0].isV4 == v4 then
      assert ips[0] == ips[0];
      Some(ips[0])
    else
      var r := FirstOfFamily(ips[1..], v4);
      assert forall i | 0 < i < |ips| :: ips[1..][i - 1] == ips[i];
      if r.Some? then
        var k :| 0 <= k < |ips[1..]| && ips[1..][k] == r.value && r.value.isV4 == v4 &&
                 forall j | 0 <= j < k :: ips[1..][j].isV4 != v4;
        assert ips[k + 1] == r.value;
        r
      else r
  }

  /** The address chooseProtocol settles on: the first of the wanted family,
      else the last address seen (the fallback), else none. */
  function Chosen(ips: seq<IpAddr>, ipProtocol: string): Option<IpAddr> {
    match FirstOfFamily(ips, WantsV4(ipProtocol))
    case Some(ip) => Some(ip)
    case None => if ips == [] then None else Some(ips[|ips| - 1])
  }

  /** chooseProtocol with the lookup outcome passed in: a failed lookup is
      an error, otherwise the loop returns the first address of the wanted
      family and remembers every other one as the fallback. */
  method ChooseProtocol(ipProtocol: string, lookup: Result<seq<IpAddr>>) returns (r: Result<Option<IpAddr>>)
    ensures lookup.Err? <==> r.Err?
    ensures lookup.Ok? ==> r == Ok(Chosen(lookup.value, ipProtocol))
  {
    var v4 := WantsV4(ipProtocol);
    if lookup.Err? {
      return Err(lookup.msg);
    }
    var ips := lookup.value;
    var fallback: Option<IpAddr> := None;
    var i := 0;
    while i < |ips|
      invariant 0 <= i <= |ips|
      invariant forall j | 0 <= j < i :: ips[j].isV4 != v4
      invariant fallback == if i == 0 then None else Some(ips[i - 1])
    {
      if ips[i].isV4 == v4 {
        FirstOfFamilyAt(ips, v4, i);
        return Ok(Some(ips[i]));
      }
      fallback := Some(ips[i]);
      i := i + 1;
    }
    return Ok(fallback);
  }

  /** When nothing before position `i` has the wanted family and `ips[i]`
      does, it is the first of the family. */
  lemma {:induction false} FirstOfFamilyAt(ips: seq<IpAddr>, v4: bool, i: nat)
    requires i < |ips| && ips[i].isV4 == v4
    requires forall j | 0 <= j < i :: ips[j].isV4 != v4
    ensures FirstOfFamily(ips, v4) == Some(ips[i])
  {
    if i > 0 {
      FirstOfFamilyAt(ips[1..], v4, i - 1);
    }
  }

  /** What the choice guarantees: nothing is chosen only from an empty
      list; a chosen address is one of the list; an address of the wanted
      family wins when there is one, otherwise the last address is used. */
  lemma ChosenSpec(ips: seq<IpAddr>, ipProtocol: string)
    ensures Chosen(ips, ipProtocol).None? <==> ips == []
    ensures Chosen(ips, ipProtocol).Some? ==> Chosen(ips, ipProtocol).value in ips
    ensures (exists i | 0 <= i < |ips| :: ips[i].isV4 == WantsV4(ipProtocol)) ==>
              Chosen(ips, ipProtocol).value.isV4 == WantsV4(ipProtocol)
    ensures ips != [] && (forall i | 0 <= i < |ips| :: ips[i].isV4 != WantsV4(ipProtocol)) ==>
              Chosen(ips, ipProtocol) == Some(ips[|ips| - 1])
  {
  }

  /** ip.String() of the chosen address; a nil *IPAddr prints "<nil>". */
  function IpText(ip: Option<IpAddr>): string {
    match ip
    case Some(a) => a.text
    case None => "<nil>"
  }

  // ---------------------------------------------------------------------
  // Host rewrite

  /** net.JoinHostPort: a host holding ':' is bracketed. */
  function JoinHostPort(host: string, port: string): string {
    if ':' in host then "[" + host + "]:" + port else host + ":" + port
  }

  /** The URL host after the rewrite: the resolved IP (bracketed when it
      holds ':') when the target had no port, else the IP joined with the
      port. */
  function RewriteHost(ipText: string, targetPort: string): (host: string)
    ensures targetPort == "" && ':' !in ipText ==> host == ipText
  {
    if targetPort == "" then
      if ':' in ipText then "[" + ipText + "]" else ipText
    else JoinHostPort(ipText, targetPort)
  }

  /** The IP is recoverable from the rewritten host: a bracketed host is
      exactly an IP with ':' in it, and a port is appended as ":port" to
      the same bracketed-or-bare form. */
  lemma RewriteHostShape(ipText: string, targetPort: string)
    ensures var bare := RewriteHost(ipText, "");
      && (':' in ipText <==> |bare| >= 2 && bare[0] == '[' && bare[|bare| - 1] == ']' && bare[1..|bare| - 1] == ipText)
      && (targetPort != "" ==> RewriteHost(ipText, targetPort) == bare + ":" + targetPort)
  {
    var bare := RewriteHost(ipText, "");
    if ':' in ipText {
      assert bare[1..|bare| - 1] == ipText;
    } else {
      assert bare == ipText;
      assert |bare| >= 2 ==> |bare[1..|bare| - 1]| == |ipText| - 2;
    }
  }

  // ---------------------------------------------------------------------
  // The custom transport

  /** Which underlying round tripper serves a request. */
  datatype Route = WithServerName | NoServerName

  /** The first host seen so far after one more request. */
  function NextFirstHost(firstHost: string, host: string): string {
    if firstHost == "" then host else firstHost
  }

  /** The first host after a whole series of requests. */
  function FirstHostAfter(firstHost: string, hosts: seq<string>): string
    decreases |hosts|
  {
    if hosts == [] then firstHost else FirstHostAfter(NextFirstHost(firstHost, hosts[0]), hosts[1..])
  }

  /** The first non-empty host of a series, or "". */
  function FirstNonEmpty(hosts: seq<string>): (h: string)
    ensures h == "" <==> forall i | 0 <= i < |hosts| :: hosts[i] == ""
    ensures h != "" ==> exists i | 0 <= i < |hosts| :: hosts[i] == h && forall j | 0 <= j < i :: hosts[j] == ""
  {
    if hosts == [] then ""
    else if hosts[0] != "" then
      assert hosts[0] == hosts[0];
      hosts[0]
    else
      var h := FirstNonEmpty(hosts[1..]);
      assert forall i | 0 < i < |hosts| :: hosts[1..][i - 1] == hosts[i];
      if h != "" then
        var k :| 0 <= k < |hosts[1..]| && hosts[1..][k] == h && forall j | 0 <= j < k :: hosts[1..][j] == "";
        assert hosts[k + 1] == h;
        h
      else h
  }

  /** Once set, the first host never changes; from the fresh transport it
      is the first non-empty host requested. */
  lemma {:induction false} FirstHostIsFirstNonEmpty(firstHost: string, hosts: seq<string>)
    ensures firstHost != "" ==> FirstHostAfter(firstHost, hosts) == firstHost
    ensures firstHost == "" ==> FirstHostAfter(firstHost, hosts) == FirstNonEmpty(hosts)
    decreases |hosts|
  {
    if hosts != [] {
      FirstHostIsFirstNonEmpty(NextFirstHost(firstHost, hosts[0]), hosts[1..]);
    }
  }

  /** transport: the host of the first request, one trace (its tls flag)
      per round trip, and which trace is current. */
  class Transport {
    var firstHost: string
    var traces: seq<bool>
    var current: int

    /** The current trace is the last one started. */
    ghost predicate Valid()
      reads this
    {
      current == |traces| - 1
    }

    /** newTransport */
    constructor ()
      ensures Valid() && firstHost == "" && traces == []
    {
      firstHost := "";
      traces := [];
      current := -1;
    }

    /** RoundTrip: start a trace (tls iff the scheme is https), make it
      current, remember the host if none is remembered yet, and send any
      request to another host through the transport without ServerName. */
    method RoundTrip(scheme: string, host: string) returns (route: Route)
      requires Valid()
      modifies this
      ensures Valid()
      ensures traces == old(traces) + [scheme == "https"]
      ensures firstHost == NextFirstHost(old(firstHost), host)
      ensures route == NoServerName <==> firstHost != host
    {
      var tls := scheme == "https";
      current := |traces|;
      traces := traces + [tls];
      if firstHost == "" {
        firstHost := host;
      }
      if firstHost != host {
        return NoServerName;
      }
      return WithServerName;
    }
  }

  // ---------------------------------------------------------------------
  // ProbeHTTP

  /** How one run of ProbeHTTP ends. RequestFailed is http.NewRequest
      failing: the next statement dereferences the nil request, the panic
      is recovered, and the probe returns nothing. */
  datatype HttpOutcome =
    | BadUrl
    | ResolveFailed
    | ClientFailed
    | RequestFailed
    | NoResponse
    | BadStatus(code: int)
    | Success

  /** The timing values ProbeHTTP derives from the traces, in ms. */
  datatype Timings = Timings(resolve: real, tls: real, connect: real, processing: real, transfer: real)

  /** Everything the probe receives from code it does not own. `urlHost`
      is url.Parse(..).Host (None on a parse error), `splitHostPort` is
      net.SplitHostPort (None on error), `lookup` the DNS answer,
      `clientOk` whether the client, the transport without ServerName and
      the cookie jar were all built, `requestOk` whether http.NewRequest
      accepts a URL with the given host, and `status` the status code of
      client.Do (None when it fails without a response). */
  datatype Environment = Environment(
    urlHost: string -> Option<string>,
    splitHostPort: string -> Option<(string, string)>,
    lookup: string -> Result<seq<IpAddr>>,
    clientOk: bool,
    requestOk: string -> bool,
    status: Option<int>)

  /** The host and port of a URL host; a host that does not split is taken
      whole with no port. */
  function HostAndPort(env: Environment, urlHost: string): (string, string) {
    match env.splitHostPort(urlHost)
    case Some(hp) => hp
    case None => (urlHost, "")
  }

  /** Which way the probe of `addr` ends. */
  function Outcome(addr: string, env: Environment): HttpOutcome {
    match env.urlHost(WithScheme(addr))
    case None => BadUrl
    case Some(urlHost) =>
      var (targetHost, targetPort) := HostAndPort(env, urlHost);
      match env.lookup(targetHost)
      case Err(_) => ResolveFailed
      case Ok(ips) =>
        if !env.clientOk then ClientFailed
        else if !env.requestOk(RewriteHost(IpText(Chosen(ips, "ip4")), targetPort)) then RequestFailed
        else match env.status
          case None => NoResponse
          case Some(code) => if code > 300 then BadStatus(code) else Success
  }

  /** The clock reading (time.Now().Unix()) taken for each record. The
      success and the four timing records are stamped before the URL is
      parsed, the resolve record only after the lookup has returned, so
      the readings may differ. */
  datatype HttpStamps = HttpStamps(succ: int, tls: int, connect: int, processing: int, transfer: int, resolve: int)

  /** The labels every record of the worker carries, and the clock
      readings of its records. */
  datatype HttpLabels = HttpLabels(localIp: string, localRegion: string, addr: string, targetRegion: string,
                                   probeType: string, stamps: HttpStamps)

  function Record(l: HttpLabels, metric: string, stamp: int, value: real): ProbeResult {
    ProbeResult(metric, l.localIp, l.localRegion, l.targetRegion, l.probeType, l.addr, stamp, value)
  }

  /** The batch for each outcome. */
  function BatchFor(o: HttpOutcome, l: HttpLabels, t: Timings): seq<ProbeResult> {
    var succ0 := Record(l, MetricsNameHttpInterfaceSuccess, l.stamps.succ, 0.0);
    var resolve := Record(l, MetricsNameHttpResolvedurationMillonseconds, l.stamps.resolve, t.resolve);
    match o
    case BadUrl => [succ0]
    case ResolveFailed => [succ0]
    case ClientFailed => [resolve, succ0]
    case RequestFailed => []
    case NoResponse => [resolve, succ0]
    case BadStatus(_) => [resolve, succ0]
    case Success =>
      [ resolve,
        Record(l, MetricsNameHttpInterfaceSuccess, l.stamps.succ, 1.0),
        Record(l, MetricsNameHttpTlsDurationMillonseconds, l.stamps.tls, t.tls),
        Record(l, MetricsNameHttpConnectDurationMillonseconds, l.stamps.connect, t.connect),
        Record(l, MetricsNameHttpProcessingDurationMillonseconds, l.stamps.processing, t.processing),
        Record(l, MetricsNameHttpTransferDurationMillonseconds, l.stamps.transfer, t.transfer) ]
  }

  /** ProbeHTTP: default the scheme, parse, split, resolve for ip4, build
      the client, rewrite the host, send, and grow the batch as it goes. */
  method ProbeHttp(l: HttpLabels, env: Environment, t: Timings) returns (prs: seq<ProbeResult>)
    ensures prs == BatchFor(Outcome(l.addr, env), l, t)
  {
    prs := [];
    var pSucc := Record(l, MetricsNameHttpInterfaceSuccess, l.stamps.succ, 0.0);
    var target := WithScheme(l.addr);
    var parsed := env.urlHost(target);
    if parsed.None? {
      prs := prs + [pSucc];
      return;
    }
    var targetHost, targetPort := HostAndPort(env, parsed.value).0, HostAndPort(env, parsed.value).1;
    var ip := ChooseProtocol("ip4", env.lookup(targetHost));
    if ip.Err? {
      prs := prs + [pSucc];
      return;
    }
    var prlt := Record(l, MetricsNameHttpResolvedurationMillonseconds, l.stamps.resolve, t.resolve);
    prs := prs + [prlt];
    if !env.clientOk {
      prs := prs + [pSucc];
      return;
    }
    var host := RewriteHost(IpText(ip.value), targetPort);
    if !env.requestOk(host) {
      return [];
    }
    if env.status.None? || env.status.value > 300 {
      prs := prs + [pSucc];
      return;
    }
    pSucc := pSucc.(value := 1.0);
    prs := prs + [pSucc];
    prs := prs + [Record(l, MetricsNameHttpTlsDurationMillonseconds, l.stamps.tls, t.tls)];
    prs := prs + [Record(l, MetricsNameHttpConnectDurationMillonseconds, l.stamps.connect, t.connect)];
    prs := prs + [Record(l, MetricsNameHttpProcessingDurationMillonseconds, l.stamps.processing, t.processing)];
    prs := prs + [Record(l, MetricsNameHttpTransferDurationMillonseconds, l.stamps.transfer, t.transfer)];
  }

  /** The number of success records in a batch. */
  function SuccessCount(prs: seq<ProbeResult>): nat {
    if prs == [] then 0
    else SuccessCount(prs[..|prs| - 1]) + (if prs[|prs| - 1].metricName == MetricsNameHttpInterfaceSuccess then 1 else 0)
  }

  lemma {:induction false} SuccessCountConcat(a: seq<ProbeResult>, b: seq<ProbeResult>)
    ensures SuccessCount(a + b) == SuccessCount(a) + SuccessCount(b)
    decreases |b|
  {
    if b == [] {
      assert a + b == a;
    } else {
      var n := |b| - 1;
      assert (a + b)[..|a + b| - 1] == a + b[..n];
      SuccessCountConcat(a, b[..n]);
    }
  }

  lemma SuccessCountOne(r: ProbeResult)
    ensures SuccessCount([r]) == if r.metricName == MetricsNameHttpInterfaceSuccess then 1 else 0
  {
    assert [r][..0] == [];
  }

  /** Every batch but the recovered request failure holds exactly one
      success record, so a probe that returns normally never returns an
      empty batch. */
  lemma BatchForOneSuccess(o: HttpOutcome, l: HttpLabels, t: Timings)
    ensures BatchFor(o, l, t) == [] <==> o == RequestFailed
    ensures o != RequestFailed ==> SuccessCount(BatchFor(o, l, t)) == 1
  {
    var prs := BatchFor(o, l, t);
    var succ := Record(l, MetricsNameHttpInterfaceSuccess, l.stamps.succ, if o == Success then 1.0 else 0.0);
    var resolve := Record(l, MetricsNameHttpResolvedurationMillonseconds, l.stamps.resolve, t.resolve);
    SuccessCountOne(succ);
    assert MetricsNameHttpResolvedurationMillonseconds[5] != MetricsNameHttpInterfaceSuccess[5];
    SuccessCountOne(resolve);
    match o
    case BadUrl =>
    case ResolveFailed =>
    case RequestFailed =>
    case Success =>
      var tail := prs[2..];
      assert prs == [resolve] + [succ] + tail;
      SuccessCountConcat([resolve], [succ]);
      SuccessCountConcat([resolve] + [succ], tail);
      TimingRecords(l, t);
    case _ =>
      assert prs == [resolve] + [succ];
      SuccessCountConcat([resolve], [succ]);
  }

  /** After the success record of a successful probe come exactly the four
      timing records: tls, connect, processing and transfer, in that order,
      each with its own timing and clock reading; none is a success record. */
  lemma TimingRecords(l: HttpLabels, t: Timings)
    ensures var tail := BatchFor(Success, l, t)[2..];
      && |tail| == 4
      && tail[0].metricName == MetricsNameHttpTlsDurationMillonseconds
      && tail[0].value == t.tls && tail[0].timeStamp == l.stamps.tls
      && tail[1].metricName == MetricsNameHttpConnectDurationMillonseconds
      && tail[1].value == t.connect && tail[1].timeStamp == l.stamps.connect
      && tail[2].metricName == MetricsNameHttpProcessingDurationMillonseconds
      && tail[2].value == t.processing && tail[2].timeStamp == l.stamps.processing
      && tail[3].metricName == MetricsNameHttpTransferDurationMillonseconds
      && tail[3].value == t.transfer && tail[3].timeStamp == l.stamps.transfer
      && SuccessCount(tail) == 0
  {
    var prs := BatchFor(Success, l, t)[2..];
    assert MetricsNameHttpTlsDurationMillonseconds[5] != MetricsNameHttpInterfaceSuccess[5];
    assert MetricsNameHttpConnectDurationMillonseconds[5] != MetricsNameHttpInterfaceSuccess[5];
    assert MetricsNameHttpProcessingDurationMillonseconds[5] != MetricsNameHttpInterfaceSuccess[5];
    assert MetricsNameHttpTransferDurationMillonseconds[5] != MetricsNameHttpInterfaceSuccess[5];
    assert |prs| == 4;
    assert prs[..3][..2][..1][..0] == [];
    assert SuccessCount(prs[..1]) == 0;
    assert SuccessCount(prs[..2]) == 0 by { assert prs[..2][..1] == prs[..1]; }
    assert SuccessCount(prs[..3]) == 0 by { assert prs[..3][..2] == prs[..2]; }
    assert prs[..4] == prs && prs[..4][..3] == prs[..3];
  }

  /** The success record reads 1 exactly on success; every record carries
      the worker's labels; the success and resolve records carry their own
      clock readings; a resolve time is reported, first, exactly when the
      target was resolved and the request could be built. */
  lemma BatchForLabels(o: HttpOutcome, l: HttpLabels, t: Timings)
    ensures var prs := BatchFor(o, l, t);
      && (forall r | r in prs && r.metricName == MetricsNameHttpInterfaceSuccess :: r.value == (if o == Success then 1.0 else 0.0))
      && (forall r | r in prs :: r.workerName == l.localIp && r.sourceRegion == l.localRegion &&
            r.targetAddr == l.addr && r.targetRegion == l.targetRegion && r.probeType == l.probeType)
      && (forall r | r in prs && r.metricName == MetricsNameHttpInterfaceSuccess :: r.timeStamp == l.stamps.succ)
      && (forall r | r in prs && r.metricName == MetricsNameHttpResolvedurationMillonseconds :: r.timeStamp == l.stamps.resolve)
      && (o !in {BadUrl, ResolveFailed, RequestFailed} <==> prs != [] && prs[0].metricName == MetricsNameHttpResolvedurationMillonseconds)
  {
    BatchForStamps(o, l, t);
    assert MetricsNameHttpResolvedurationMillonseconds[5] != MetricsNameHttpInterfaceSuccess[5];
  }

  /** The success and resolve records carry their own clock readings, and
      the success value is 1 exactly on success. */
  lemma BatchForStamps(o: HttpOutcome, l: HttpLabels, t: Timings)
    ensures var prs := BatchFor(o, l, t);
      && (forall r | r in prs && r.metricName == MetricsNameHttpInterfaceSuccess :: r.value == (if o == Success then 1.0 else 0.0))
      && (forall r | r in prs && r.metricName == MetricsNameHttpInterfaceSuccess :: r.timeStamp == l.stamps.succ)
      && (forall r | r in prs && r.metricName == MetricsNameHttpResolvedurationMillonseconds :: r.timeStamp == l.stamps.resolve)
  {
    assert MetricsNameHttpResolvedurationMillonseconds[5] != MetricsNameHttpInterfaceSuccess[5];
    assert MetricsNameHttpTlsDurationMillonseconds[5] != MetricsNameHttpInterfaceSuccess[5];
    assert MetricsNameHttpConnectDurationMillonseconds[5] != MetricsNameHttpInterfaceSuccess[5];
    assert MetricsNameHttpProcessingDurationMillonseconds[5] != MetricsNameHttpInterfaceSuccess[5];
    assert MetricsNameHttpTransferDurationMillonseconds[5] != MetricsNameHttpInterfaceSuccess[5];
    assert MetricsNameHttpTlsDurationMillonseconds[5] != MetricsNameHttpResolvedurationMillonseconds[5];
    assert MetricsNameHttpConnectDurationMillonseconds[5] != MetricsNameHttpResolvedurationMillonseconds[5];
    assert MetricsNameHttpProcessingDurationMillonseconds[5] != MetricsNameHttpResolvedurationMillonseconds[5];
    assert MetricsNameHttpTransferDurationMillonseconds[5] != MetricsNameHttpResolvedurationMillonseconds[5];
  }

  /** Status 300 is not above the threshold, so it counts as success; 301
      does not. */
  lemma StatusThreshold(addr: string, env: Environment)
    requires Outcome(addr, env) in {NoResponse, Success} || Outcome(addr, env).BadStatus?
    ensures env.status == Some(300) ==> Outcome(addr, env) == Success
    ensures env.status == Some(301) ==> Outcome(addr, env) == BadStatus(301)
  {
  }
}
