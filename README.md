# xprober core in Dafny

xprober is a distributed network prober. Agents run one worker per target.
Each worker pings or fetches its target and caches the measurements, and the
agent pushes the cache to a central server. The server keeps the latest
measurement per series, averages the live ones every pass and publishes the
means as Prometheus gauges. It also maintains the target pool the agents
fetch from: an icmp "mesh" built from the agents' heartbeats plus targets
configured by the operator.

This project models the sequential rules at the heart of that system and
proves properties of them. Goroutines, tickers, gRPC and Prometheus are
stripped away. Every pass over a map or list is one atomic method. Go map and
`sync.Map` iteration order is unspecified, so each loop over such a map picks
its next key nondeterministically and returns a ghost `order`: a
duplicate-free enumeration of the keys. The result is then specified as a
fold over that order.

Modules, one per source file:

- `Common` (common.dfy): the measurement record `ProbeResult`, the target
  descriptor `Targets`, the two request messages, the metric names and the
  enumeration helpers.
- `Strings` (strings.dfy): the parts of Go's `strings` package the core
  uses, for a one-character separator. These are Split with its inverse
  Join, Contains, HasPrefix and Replace-by-nothing.
- `AgentTarget` (pkg/agent/target.go): the worker registry
  `LocalTargetManager`, the workers `LocalTarget` and the result cache
  `ResultCache`.
- `AgentRpc` (pkg/agent/rpc.go): the flatten-and-push decision, the
  forward-if-non-empty rule and the request messages.
- `AgentIcmp` (pkg/agent/icmp.go): parsing the `ping` summary into a
  two-record batch. The command is an oracle `(cmdOk, output)`.
- `AgentHttp` (pkg/agent/http.go):
  - scheme defaulting;
  - address-family choice with fallback;
  - host rewriting;
  - the redirect-tracking `Transport`;
  - the batch produced for each way a probe can end.

  DNS, URL parsing, client creation, the request and the response are all
  passed in as an `Environment`.
- `ServerPool` (pkg/server/target_pool.go): `TargetPool`, holding:
  - the icmp view (mesh);
  - the other view (configured lists);
  - the roster, mapping agent address to region.

  Also the address merge and target selection.
- `ServerData` (pkg/server/data_process.go):
  - the result stores;
  - expiry;
  - grouping by `metric#source#target`;
  - means;
  - gauge vectors, modelled as maps from label values to reals.
- `ServerRpc` (pkg/server/rpc.go): the result uid and the three handlers.

### Behaviour of the code worth knowing

- **Result and worker identities can collide.** `GetProbeResultUid`
  concatenates six fields with no separator, so two different series can
  share a uid and overwrite each other (`ServerRpc.UidCollides`). The worker
  identity `region + addr + proberType` is built the same way
  (`AgentTarget.TargetIdCollides`).
- **Configured entries are listed twice unless they are icmp entries.** The
  configuration refresh appends every entry once to its region's "other"
  list, and appends every non-icmp entry a second time
  (`ServerPool.OtherListsExact`, `ServerPool.OtherListsExample`). So
  `GetTargetsByRegion(R)` returns R's own configured icmp entries, and every
  configured http entry twice. Only the mesh part excludes R.
- **Four http groups keep only their last value.** For connect, processing,
  transfer and interface values the code tests the *tls* group under the
  same key for emptiness, not the group being filled. When metric names hold
  no `#`, that test always finds the tls group empty, so those groups keep
  only the last scanned value, while resolve and tls groups keep every live
  value (`ServerData.HttpScanKeepsLast`, `ServerData.HttpScanAccumulates`).
- **A failed request builds an empty batch.** When `http.NewRequest` fails,
  the code dereferences the nil request before testing the error. The
  recovered panic makes the probe return an empty batch instead of a
  failure record (`AgentHttp.BatchForOneSuccess`: the batch is empty exactly
  for `RequestFailed`).

## Model

| member | source | states |
|---|---|---|
| AgentTarget.DefaultProbers | pkg/agent/target.go:142-149 | the registry holds exactly the prober types "http" and "icmp", mapped to the http and icmp probes |
| AgentTarget.TargetIdCollides | pkg/agent/target.go:109 | two different (region, address) pairs can produce the same worker identity |
| AgentTarget.ResultCache.Store | pkg/agent/target.go:168 | the cache maps the key to the new batch; every other entry is unchanged |
| AgentTarget.LocalTarget.Uid | pkg/agent/target.go:151-154 | a worker's Uid is the identity the reconciler keys it by (target region + address + probe type) |
| AgentTarget.LocalTarget.Stop | pkg/agent/target.go:177-179 | closing the quit channel requires a running worker and leaves it stopped |
| AgentTarget.LocalTarget.Step | pkg/agent/target.go:160-170 | a stopped worker ends its loop; a running one stores its batch under its Uid only when the batch is non-empty; otherwise the cache is unchanged |
| AgentTarget.AddrIdsMembers | pkg/agent/target.go:108-110 | an identity comes from an entry's address list exactly when some address of the list produces it |
| AgentTarget.DesiredIdsMembers | pkg/agent/target.go:102-110 | an identity is desired exactly when an entry of a registered prober type lists an address producing it; entries of unregistered types contribute nothing |
| AgentTarget.DesiredIdsRepeat | pkg/agent/target.go:108-113 | repeating a desired entry asks for no new identity, so a repeated target yields one worker |
| AgentTarget.LocalTargetManager.GetMapKeys | pkg/agent/target.go:31-42 | the key buffer lists every registered identity exactly once; its length is the map size |
| AgentTarget.LocalTargetManager.Reconcile | pkg/agent/target.go:99-136 | after one pass the key set is exactly the desired identity set. Survivors keep the same worker object. Removed workers have been stopped. New workers are fresh, run in the local region, target the desired region and use the registered probe. The result cache is outside the modifies clause, so it is untouched |
| AgentTarget.LocalTargetManager.StartDesired | pkg/agent/target.go:99-129 | the collected identity set is the desired set; the keys grow by exactly that set; existing workers are not replaced |
| AgentTarget.LocalTargetManager.StartEntry | pkg/agent/target.go:108-127 | one registered entry adds exactly its address identities, each new one with a fresh, correctly labelled worker |
| AgentTarget.LocalTargetManager.StopUndesired | pkg/agent/target.go:130-136 | only keys of the earlier snapshot are removal candidates; afterwards the keys are exactly the desired ones and every removed worker is stopped |
| Common.ConcatValuesMembers | pkg/agent/rpc.go:107-116 | the flattened list holds exactly the elements of the cached batches |
| Common.ConcatValuesEmpty | pkg/agent/rpc.go:117-120 | the flattened list is empty exactly when every cached batch is empty |
| AgentRpc.FlattenCache | pkg/agent/rpc.go:107-116 | the flattened list is the concatenation of every cached batch in one enumeration order of the cache; it holds exactly the cached results and is empty exactly when every batch is |
| AgentRpc.PushPbResults | pkg/agent/rpc.go:105-138 | the push is skipped exactly when every batch is empty, and no connection is taken then. A pool error with something to push ends without a call. Otherwise the request is the flattened cache. A call error is only recorded, nothing is re-queued, and the cache is never modified |
| AgentRpc.ForwardedTargets | pkg/agent/rpc.go:77-101 | a reply is forwarded exactly when the pool and the call succeed and the target list is non-empty, and then unchanged |
| AgentRpc.RefreshTargets | pkg/agent/rpc.go:75-103 | the reconciler runs on the reply exactly when it is forwarded: the worker keys become the reply's desired identities, surviving workers are the same objects, dropped workers are stopped and new ones are fresh workers spawned for the reply; otherwise the worker map and every worker object are unchanged |
| AgentRpc.ReportRequest | pkg/agent/rpc.go:63 | the heartbeat carries the agent's address and region |
| AgentRpc.FetchRequest | pkg/agent/rpc.go:91 | the target request carries the agent's region and address |
| AgentIcmp.ScanSummaryLines | pkg/agent/icmp.go:85-97 | the line scan keeps the last loss line and the last latency line that is not a loss line |
| AgentIcmp.LastLossLineIsLast | pkg/agent/icmp.go:85-91 | the loss line is either "" when no line mentions "packets transmitted", or such a line with no later one |
| AgentIcmp.LastLatencyLineIsLast | pkg/agent/icmp.go:85-95 | the latency line is the last line mentioning "min/avg/max/mdev" and not "packets transmitted" (no later line qualifies), and it is "" exactly when no line qualifies |
| AgentIcmp.LossField | pkg/agent/icmp.go:98-99 | the loss text exists exactly when the line has a sixth space field, and it holds no '%' |
| AgentIcmp.LatencyFieldToken | pkg/agent/icmp.go:101-104 | the latency text is missing exactly when the line has fewer than two fields or the second-to-last has no '/'; when present it holds neither ' ' nor '/' |
| AgentIcmp.NumberOrZero | pkg/agent/icmp.go:100-105 | unparseable text becomes 0, otherwise the parsed number |
| AgentIcmp.ProbeIcmp | pkg/agent/icmp.go:67-134 | the method's batch is the specified batch for the command outcome and output |
| AgentIcmp.IcmpBatchShape | pkg/agent/icmp.go:69-130 | the batch is empty exactly when the command failed or a line or field is missing. Otherwise it is [packageDrop, latency], both labelled with the local address and region, the target address and region and the probe type; each carries its own clock reading (the drop record the earlier one) |
| AgentIcmp.LossFieldOfFields | pkg/agent/icmp.go:98-100 | for a line made of space-free fields, the loss text is the sixth field with every '%' removed |
| AgentIcmp.LatencyFieldOfFields | pkg/agent/icmp.go:101-105 | for a line made of space-free fields, the latency text is the second '/'-piece of the second-to-last field |
| AgentIcmp.LossFieldExample | pkg/agent/icmp.go:98-100 | a typical "0% packet loss" summary line gives "0" |
| AgentIcmp.LatencyFieldExample | pkg/agent/icmp.go:101-105 | a typical `ping -A` rtt line gives its ewma "0.040" |
| Strings.RemoveChar | pkg/agent/icmp.go:99 | Replace(s, "%", "", -1) removes every '%' and keeps every other character |
| Strings.RemoveCharConcat | pkg/agent/icmp.go:99 | the removal works character by character: a lone character is dropped exactly when it is the removed one, and a concatenation is handled piece by piece, so the kept characters stay in order and keep their multiplicity |
| AgentHttp.WithScheme | pkg/agent/http.go:250-254 | the probed URL always starts with "http://" or "https://" |
| AgentHttp.WithSchemeCases | pkg/agent/http.go:250-254 | an address with a scheme is unchanged, one without gets "http://" prepended, and the defaulting is idempotent |
| AgentHttp.WantsV4 | pkg/agent/http.go:131-135 | "ip6" and "" select ip6; anything else selects ip4 |
| AgentHttp.FirstOfFamily | pkg/agent/http.go:150-171 | the loop returns the first address of the wanted family, and nothing exactly when there is none |
| AgentHttp.FirstOfFamilyAt | pkg/agent/http.go:150-166 | an address of the wanted family with none before it is the one returned |
| AgentHttp.ChosenSpec | pkg/agent/http.go:150-176 | an address is chosen exactly when the lookup returned any. It has the wanted family when one exists. Otherwise it is the last address seen (the fallback) |
| AgentHttp.ChooseProtocol | pkg/agent/http.go:129-177 | a failed lookup is an error; otherwise the result is the chosen address |
| AgentHttp.RewriteHost | pkg/agent/http.go:321-330 | without a port, an IPv4 address is used as is |
| AgentHttp.RewriteHostShape | pkg/agent/http.go:321-330 | without a port, the host is bracketed exactly when the address holds ':', and the brackets enclose the address; with a port it is that host joined with ":" and the port |
| AgentHttp.FirstHostIsFirstNonEmpty | pkg/agent/http.go:80-82 | after a series of requests the remembered first host is the first non-empty host, and a set one never changes |
| AgentHttp.Transport.RoundTrip | pkg/agent/http.go:70-92 | each call appends a trace whose tls flag is true exactly for https. The first host is set once. Requests to another host go through the no-ServerName transport |
| AgentHttp.ProbeHttp | pkg/agent/http.go:179-425 | the method's batch is the specified batch for the probe's outcome |
| AgentHttp.BatchForOneSuccess | pkg/agent/http.go:256-424 | every outcome but a failed request creation yields a non-empty batch with exactly one success record |
| AgentHttp.TimingRecords | pkg/agent/http.go:418-423 | on success, exactly four records follow the success record: tls, connect, processing and transfer, in that order, each with its own measured duration and clock reading; none of them is a success record |
| AgentHttp.BatchForStamps | pkg/agent/http.go:207-285 | the success record reads 1 only on full success and carries the clock reading taken before parsing; the resolve record carries the reading taken after the lookup |
| AgentHttp.BatchForLabels | pkg/agent/http.go:259-424 | the success record is 1 only on full success, and 0 otherwise. Every record carries the worker's labels. The success record carries the clock reading taken before the address is parsed, the resolve record the one taken after the lookup. The batch starts with the resolve record exactly when the address parsed and resolved and request creation did not fail |
| AgentHttp.StatusThreshold | pkg/agent/http.go:364-368 | status 300 counts as success, 301 as failure |
| ServerPool.MergeAddresses | pkg/server/target_pool.go:63-73 | the merge loop yields the incoming addresses followed by the held ones they lack |
| ServerPool.KeepAbsentMembers | pkg/server/target_pool.go:69-73 | the appended part holds exactly the held addresses missing from the incoming list |
| ServerPool.MergedUnion | pkg/server/target_pool.go:62-80 | the merged set is the union of both lists, with the incoming list first in order: no held address is dropped |
| ServerPool.MergedIdempotent | pkg/server/target_pool.go:62-80 | merging the same incoming list again changes nothing |
| ServerPool.MergedNoDup | pkg/server/target_pool.go:62-80 | merging duplicate-free lists gives a duplicate-free list |
| ServerPool.MergeExample | pkg/server/target_pool.go:62-80 | merging [B, C] into [A, B] gives [B, C, A] |
| ServerPool.AbsorbAllView | pkg/server/target_pool.go:54-82 | the mesh after a refresh has the regions it had plus the updated ones |
| ServerPool.AbsorbAllViewSpec | pkg/server/target_pool.go:60-80 | every mesh entry stays keyed by its own region with type "icmp", and no held or incoming address is lost |
| ServerPool.GroupByRegionMembers | pkg/server/target_pool.go:44-53 | a region is grouped exactly when some agent reports it, and its group lists exactly its agents, each once |
| ServerPool.Projection | pkg/server/target_pool.go:54-59 | every projected entry is keyed by its region and has type "icmp" |
| ServerPool.RosterProjection | pkg/server/target_pool.go:44-59 | the roster projection has one icmp entry per region with an agent, listing exactly that region's agents, each once |
| ServerPool.LastIcmpSpec | pkg/server/target_pool.go:127-129 | a region gets a configured mesh entry exactly when an icmp entry names it, and it is the last such entry |
| ServerPool.OtherListsMembers | pkg/server/target_pool.go:121-132 | a region gets a configured list exactly when an entry names it, and the list holds exactly that region's entries |
| ServerPool.OtherListsExact | pkg/server/target_pool.go:121-132 | a region's configured list is exactly its entries in configuration order, each icmp entry once and each other entry twice in a row |
| ServerPool.OtherListsExample | pkg/server/target_pool.go:126-131 | an http entry is listed twice and an icmp entry once |
| ServerPool.IcmpOthersMembers | pkg/server/target_pool.go:182-192 | the mesh part of a reply holds exactly the mesh entries of the other regions |
| ServerPool.TargetPool.StoreOrMerge | pkg/server/target_pool.go:60-80 | a region's first entry is stored as is; a later one is merged with the held entry as an icmp entry of that region |
| ServerPool.TargetPool.AbsorbAll | pkg/server/target_pool.go:135-158 | the loop absorbs every update into the mesh and leaves other regions alone |
| ServerPool.TargetPool.FlushAgentIpIntoGlobalMap | pkg/server/target_pool.go:42-85 | the mesh absorbs the projection of the roster; the configured lists and the roster are unchanged |
| ServerPool.TargetPool.RefreshFromConfigFile | pkg/server/target_pool.go:111-164 | an empty configuration changes nothing. Otherwise the mesh absorbs the last icmp entry of each region. Each configured region's list is replaced wholesale and other regions keep theirs |
| ServerPool.TargetPool.StoreAll | pkg/server/target_pool.go:160-163 | each configured region's list replaces the old one; other regions keep theirs |
| ServerPool.TargetPool.GetTargetsByRegion | pkg/server/target_pool.go:171-195 | the reply holds the mesh entries of every other region, then every configured list of every region, the asking one included. No mesh entry in it belongs to the asking region |
| ServerData.MetricType | pkg/server/data_process.go:118-119 | a type field exists exactly when the metric name holds '_' |
| ServerData.UniqueKey | pkg/server/data_process.go:120 | the '#'-pieces of a group key are those of metric, source and target, so there are at least three |
| ServerData.LiveEntries | pkg/server/data_process.go:113-116 | an entry survives a pass exactly when it is no more than 300 s old, and it survives unchanged |
| ServerData.ExpiryBoundary | pkg/server/data_process.go:115 | a result stamped now, or exactly 300 s ago, is kept; one stamped 301 s ago is removed |
| ServerData.ExpiredKeysMembers | pkg/server/data_process.go:113-116 | the expired list names exactly the expired entries, each once |
| ServerData.HttpScan | pkg/server/data_process.go:109-172 | every http group a pass builds is non-empty and its key has at least three '#'-pieces (the group contents: ServerData.HttpScanAccumulates, ServerData.HttpScanKeepsLast) |
| ServerData.IcmpScan | pkg/server/data_process.go:198-232 | every icmp group a pass builds is non-empty and its key has at least three '#'-pieces (the group contents: ServerData.IcmpScanAccumulates) |
| ServerData.HttpStepPublishable | pkg/server/data_process.go:118-166 | one http result keeps every group non-empty with a well-formed key |
| ServerData.IcmpStepPublishable | pkg/server/data_process.go:207-227 | one icmp result keeps both groups non-empty with a well-formed key |
| ServerData.IgnoredMetrics | pkg/server/data_process.go:118-166 | a name without '_', or with a type field matching no case, changes no group |
| ServerData.AccumulatingGroups | pkg/server/data_process.go:122-136 | resolve, tls, latency and packageDrop values are appended to their group |
| ServerData.TlsMissesOtherCases | pkg/server/data_process.go:137-164 | with '#'-free metric names, the tls group never holds the key of a result of another case |
| ServerData.CheckedGroupsKeepLast | pkg/server/data_process.go:137-164 | with '#'-free metric names, a connect, processing, transfer or interface value leaves its group holding that value alone |
| ServerData.HttpStepTls | pkg/server/data_process.go:130-136 | only a tlsDuration result changes the tls group |
| ServerData.TlsKeysTypedStep | pkg/server/data_process.go:130-136 | every tls key belongs to a tlsDuration metric, and one step preserves this |
| ServerData.HttpScanTlsKeysTyped | pkg/server/data_process.go:109-172 | over a whole pass with '#'-free metric names, the tls group only holds tlsDuration keys |
| ServerData.HttpStepGroup | pkg/server/data_process.go:118-166 | one live http result changes only the group of its own case: resolve and tls append under its key, the other four cases test the tls group |
| ServerData.HttpScanAccumulates | pkg/server/data_process.go:109-136 | over a whole pass, the resolve and tls groups under a key hold every live value of that case and key, in scan order |
| ServerData.HttpScanKeepsLast | pkg/server/data_process.go:109-164 | over a whole pass with '#'-free metric names, the connect, processing, transfer and interface groups under a key hold only the last live value of that case and key, and nothing when there is none |
| ServerData.IcmpStepLookup | pkg/server/data_process.go:207-227 | one live icmp result appends its value to the latency or packageDrop group under its key and changes nothing else |
| ServerData.IcmpScanAccumulates | pkg/server/data_process.go:198-232 | over a whole pass, the latency and packageDrop groups under a key hold every live value of that metric type and key, in scan order |
| ServerData.UniqueKeyMetric | pkg/server/data_process.go:120 | the first piece of a key is its metric name |
| ServerData.SumValues | pkg/server/data_process.go:253-255 | the sum loop computes the sum of the group |
| ServerData.SumBounds | pkg/server/data_process.go:251-256 | the sum of n values between lo and hi lies between n·lo and n·hi |
| ServerData.MeanBounds | pkg/server/data_process.go:251-256 | the mean lies between the least and the greatest value, and a single value is its own mean |
| ServerData.MeanExample | pkg/server/data_process.go:251-256 | values 10, 20 and 30 publish 20 |
| ServerData.LabelsOfUniqueKey | pkg/server/data_process.go:249-250 | the labels of a key built from '#'-free fields are its source region and its target |
| ServerData.GaugeVec.Set | pkg/server/data_process.go:259-261 | setting a label pair replaces its value and leaves the others |
| ServerData.Gauges.constructor | pkg/server/data_process.go:29-64 | the six http vectors are distinct objects, as are the two icmp ones; each carries its metric name; the http ones are labelled (source_region, addr) and the icmp ones (source_region, target_region) |
| ServerData.DealWithDataMap | pkg/server/data_process.go:246-265 | for "http" and "icmp", every group's labels are set to the mean of a group carrying them. Labels no group carries are neither reset nor removed. Any other type sets nothing |
| ServerData.PublishStep | pkg/server/data_process.go:247-263 | publishing one more group keeps the published relation |
| ServerData.PublishedUnique | pkg/server/data_process.go:246-264 | a group whose labels no other group shares publishes exactly its own mean |
| ServerData.ResultStores.ScanHttp | pkg/server/data_process.go:109-174 | the scan's expired list and groups are the specified fold over one enumeration of the http store; the expired list names exactly the expired entries, each once |
| ServerData.ResultStores.ScanIcmp | pkg/server/data_process.go:198-234 | the scan's expired list and groups are the specified fold over one enumeration of the icmp store; the expired list names exactly the expired entries, each once |
| ServerData.ResultStores.DeleteHttp | pkg/server/data_process.go:175-178 | the delete loop removes exactly the listed keys from the http store |
| ServerData.ResultStores.DeleteIcmp | pkg/server/data_process.go:235-238 | the delete loop removes exactly the listed keys from the icmp store |
| ServerData.DeleteExpiredLeavesLive | pkg/server/data_process.go:174-178 | deleting the expired list leaves exactly the live entries |
| ServerData.HttpDataProcess | pkg/server/data_process.go:99-187 | after an http pass, the store holds exactly its live entries. Each of the six groups is published to its own gauge. The icmp store is untouched |
| ServerData.IcmpDataProcess | pkg/server/data_process.go:189-244 | after an icmp pass, the store holds exactly its live entries. Both groups are published. The http store is untouched |
| ServerRpc.UidIgnoresMeasurement | pkg/server/rpc.go:79-83 | two measurements of one series share a uid |
| ServerRpc.UidCollides | pkg/server/rpc.go:79-83 | two results with different worker names can share a uid |
| ServerRpc.Int32 | pkg/server/rpc.go:100 | int32() keeps a count in range unchanged and wraps any other count modulo 2^32 |
| ServerRpc.StoreOfTypeSpec | pkg/server/rpc.go:89-99 | a uid is stored exactly when it was stored before or a pushed result of the store's type carries it. The last such result wins. Uids no pushed result carries keep their entry |
| ServerRpc.PushProberResults | pkg/server/rpc.go:85-101 | icmp results go to the icmp store and http results to the http store, in order. Other types are stored nowhere. The answer counts every result |
| ServerRpc.ProberAgentIpReports | pkg/server/rpc.go:103-110 | the roster maps the reporting address to its region, everything else is unchanged, and the answer is success |
| ServerRpc.HeartbeatReachesMesh | pkg/server/rpc.go:107 | after an agent's heartbeat, the next roster flush leaves an icmp mesh entry for its region that lists its address |
| ServerRpc.GetProberTargets | pkg/server/rpc.go:70-77 | the reply is the pool's selection for the asking region; the asking address plays no part |

## Left out

- Concurrency: goroutines, tickers, `sync.Map` and the mutex are not modelled. This includes the mutex unlock deferred inside the refresh loop and the race between the two pool refreshes. Each pass is one atomic method.
- gRPC: the connection pool, dialing and the calls are not modelled. Their outcomes are parameters (`poolOk`, `callOk`, a `Result` reply). `reportAgentIp` is modelled only by the request it sends.
- Prometheus: registration and exposition are not modelled. A gauge vector is a map from label values to the value last set. The panic Prometheus raises for mismatched label names is not modelled.
- YAML configuration loading is not modelled; the parsed entry list is passed in. The nil dereference that a parse failure causes is therefore not modelled.
- Process bootstrap, signal handling, logging, and the EC2 metadata and interface lookups are not modelled.
- Shell execution is the `(cmdOk, output)` parameter. `ProbeICMPMock`, which uses a random generator, is not modelled.
- HTTP I/O is part of the `Environment`: DNS, TLS, the cookie jar, client construction, the request and the response. The float32 timing arithmetic over the traces is not modelled; the four timings and the resolve time are parameters. The agent's clock is a parameter too: each record gets its own reading (`HttpStamps` for the six http records, `dropAt` and `latencyAt` for the two icmp records), so the model allows them to differ as the source's repeated `time.Now()` calls do.
- `strconv.ParseFloat` is an abstract `parse` function.
- Values are reals. float32/float64 rounding, NaN and infinities are not modelled.
- `rangeIcmpMap` only prints, and is not modelled.
- `LocalTarget.Start` is modelled one loop turn at a time (`LocalTarget.Step`); the ticker is not modelled.
- Slice aliasing in the merge (`append` onto the new entry's backing array) is not modelled; lists are values.
- ServerData.HttpDataProcess: reads the clock once per pass, while the source calls `time.Now()` once per scanned entry. IcmpDataProcess does the same.
- ServerData.DealWithDataMap: when two groups share their labels, which is only possible with '#' in names or regions, the contract says only that the label holds the mean of one of them, because map order decides which.
- ServerData.HttpScan: its own contract states only that every group can be published. The contents of each group over a pass are stated by the lemmas `ServerData.HttpScanAccumulates` and `ServerData.HttpScanKeepsLast`, the latter for '#'-free metric names only (with '#' in names a key of another case can fall into the tls group).
- ServerData.IcmpScan: its own contract states only that both groups can be published. The contents of both groups over a pass are stated by the lemma `ServerData.IcmpScanAccumulates`.
