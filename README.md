# happo-agent core, modelled in Dafny

happo-agent runs on every monitored host. It runs Nagios-style monitor plugins
and buffers the metrics of Sensu-style metric plugins. It relays requests along
a chain of agents, and keeps a persistent table of "slots" (`ag-{hostPrefix}-{i}`)
for the instances of cloud auto-scaling groups. All persistent state lives in one
leveldb store whose keys are ordered byte by byte.

This project models the agent's core:

- the store (`Db`): a class over a sorted sequence of entries, with point lookup,
  put, delete, prefix scans and range scans;
- slot reconciliation (`AutoScaling`, with its properties in `RefreshProperties`)
  and the live-instance filter (`Aws`);
- the auto-scaling HTTP handlers (`AutoScalingHandlers`);
- the proxy chain (`Tool` for the request a client builds, `Proxy` for one agent's
  step);
- the metric buffer (`Collect`): the plugin-output parser, save-by-second with
  retirement, draining with a limit, and the buffer status;
- the request-status counters (`RequestStatus`) and the allow-list middleware
  (`Acl`);
- the monitor endpoint and its snapshot rate limit (`Monitor`);
- the machine-state listing (`MachineState`).

`Text` holds the pieces of Go's `strings`, `strconv` and `fmt` the core relies on.
`HaLib` holds the shared records and constants. `Wrappers` holds `Option` and
`Result`.

Each operation that works by changing things step by step is a `method` with its
loops. Each such method is proved against a specification function on the store's
contents or on the inputs, and the properties the code promises are proved as
lemmas about those functions. What the agent gets from outside is a parameter
rather than something the model performs:

- the clock: `now`, `when`, `fromWhen`, and the two readings of `isPermitSaveState`;
- the AWS SDK calls: the fields of `Aws.AwsClient`;
- the HTTP client: `Proxy.Transport`;
- `os.Stat`, `path.Join` and `util.ExecCommand` in `Monitor`;
- `strconv.ParseFloat`: `Collect.FloatParser`;
- the configuration file and the collaborators of the handlers;
- the outcome of opening, writing and committing a store transaction, where the
  code branches on it.

Three behaviours of the code that the model keeps as written:

- A slot key is `ag-{hostPrefix}-{i}`. The group name is not part of it.
- `Proxy` has no alias-aware dispatch. It forwards every hop verbatim, and an
  intermediate hop is wrapped as a `"proxy"` request.
- A transport failure other than a timeout is 502. A received response is
  passed through with its own status and is never remapped.

## Model

| member | source | states |
|---|---|---|
| `AutoScaling.SlotKey` | autoscaling/autoscaling.go:187 | a slot key starts with the group's scan prefix `ag-{hostPrefix}-` and with `ag-` |
| `AutoScaling.SlotKeyInjective` | autoscaling/autoscaling.go:187 | two slot numbers of one group have the same key only when they are equal |
| `AutoScaling.AliasRoundTrip` | autoscaling/autoscaling.go:50 | removing `ag-` from a slot key and adding it back are inverse, so aliases and slot keys correspond one to one |
| `AutoScaling.Registered` | autoscaling/autoscaling.go:96-116 | defines the group's recorded slots: each key the prefix scan `ag-{hostPrefix}-` finds, with its value decoded and a decode error giving the zero record |
| `AutoScaling.RegisteredKeys` | autoscaling/autoscaling.go:96-116 | the recorded slots of a group are exactly the stored keys with prefix `ag-{hostPrefix}-`, each holding its decoded value |
| `AutoScaling.MakeRegisteredInstances` | autoscaling/autoscaling.go:96-116 | the scan loop builds exactly the recorded-slot map of the group |
| `AutoScaling.ScanGroup` | autoscaling/autoscaling.go:42-55 | one group's listing holds the group's recorded slots keyed by alias (key without `ag-`) |
| `AutoScaling.ListAutoScaling` | autoscaling/autoscaling.go:22-63 | a config error or an open error is returned as is; otherwise one entry per configured group in config order, naming the group and listing its slots by alias; the store is not changed |
| `AutoScaling.CheckRegistered` | autoscaling/autoscaling.go:118-129 | registered exactly when some record holds the instance's ID, and then the key returned holds it; otherwise the key is "" |
| `AutoScaling.NewRecord` | autoscaling/autoscaling.go:169-181 | a newcomer's record has its instance ID and private IP and the single empty plugin |
| `AutoScaling.Classify` | autoscaling/autoscaling.go:164-183 | recorded live instances are pinned at their key with their record; the others are collected as newcomers in inventory order |
| `AutoScaling.Pinned` | autoscaling/autoscaling.go:164-167 | defines the kept records: each record that holds a live instance, at its own key and unchanged |
| `AutoScaling.Newcomers` | autoscaling/autoscaling.go:164-183 | defines the newcomers: a fresh record for each live instance that no record holds, in inventory order |
| `AutoScaling.FirstFreeFrom` | autoscaling/autoscaling.go:186-195 | the lowest slot number in the range whose key is free, or none when every slot in it is taken |
| `AutoScaling.Inherit` | autoscaling/autoscaling.go:189-191 | a newcomer moving into a slot keeps its ID and IP and takes the plugins recorded for that slot, if any |
| `AutoScaling.PlaceOne` | autoscaling/autoscaling.go:186-195 | a newcomer takes the lowest free slot, nothing else changes; with no free slot it is dropped and the table is unchanged |
| `AutoScaling.PlaceInstance` | autoscaling/autoscaling.go:186-195 | the slot loop for one newcomer yields exactly the single placement above |
| `AutoScaling.Place` | autoscaling/autoscaling.go:185-196 | defines the placement of all newcomers: one single placement after another, in inventory order |
| `AutoScaling.PlaceNewcomers` | autoscaling/autoscaling.go:185-196 | the placement loop places the newcomers one after the other in inventory order |
| `AutoScaling.EmptyRecord` | autoscaling/autoscaling.go:201-219 | an unfilled slot gets an empty instance ID and IP, and keeps its recorded plugins or gets the single empty plugin |
| `AutoScaling.Filled` | autoscaling/autoscaling.go:199-221 | defines the filled table: every existing entry kept, and every missing slot 1..count given its empty record |
| `AutoScaling.FillEmpty` | autoscaling/autoscaling.go:200-221 | the fill loop gives every missing slot 1..count its empty record |
| `AutoScaling.DeleteKeys` | autoscaling/autoscaling.go:151-153 | the delete loop removes exactly the recorded keys and keeps the store sorted |
| `AutoScaling.PutAll` | autoscaling/autoscaling.go:224-233 | the batch writes every record of the rebuilt table over the store |
| `AutoScaling.Reconcile` | autoscaling/autoscaling.go:164-221 | defines the rebuilt slot table: the kept records, then the newcomers placed, then the empty slots filled |
| `AutoScaling.Records` | autoscaling/autoscaling.go:224-233 | defines the stored form of the rebuilt table: each key holding its record as a stored instance value |
| `AutoScaling.RefreshedStore` | autoscaling/autoscaling.go:148-233 | defines the store after a successful refresh: the group's recorded keys replaced by the rebuilt table, and every other key untouched |
| `AutoScaling.RefreshAutoScalingInstances` | autoscaling/autoscaling.go:132-247 | an inventory, open, write or commit error is returned and leaves the store as it was; on success the recorded slots of the group are replaced by the rebuilt table and every other key is untouched |
| `Aws.InServiceIds` | autoscaling/aws.go:44-49 | the filter passes on at most as many IDs as there are members |
| `Aws.FirstInstances` | autoscaling/aws.go:66-68 | the result is the first instance of each reservation, in reservation order |
| `Aws.InServiceIdsMembers` | autoscaling/aws.go:45-49 | an ID is passed on exactly when some member in state `InService` carries it |
| `Aws.InServiceIdsAllInService` | autoscaling/aws.go:45-49 | when every member is in service, all their IDs are passed on in group order |
| `Aws.Ec2RequestInService` | autoscaling/aws.go:44-56 | when the instance lookup is made, it asks exactly for the IDs of the in-service members of the first group |
| `Aws.Ec2Request` | autoscaling/aws.go:40-56 | defines the instance lookup: none when the group call fails, there is no group or member list, or no member is in service; otherwise the in-service IDs of the first group |
| `Aws.Inventory` | autoscaling/aws.go:27-71 | defines the inventory: either call's error, an empty list when there is no group, no member list, no in-service member or no reservation, otherwise the first instance of each reservation |
| `Aws.DescribeAutoScalingInstances` | autoscaling/aws.go:27-71 | an error of either call is returned; no group, no instance list or no in-service member gives an empty result without the instance lookup; otherwise the first instance of each reservation |
| `RefreshProperties.PlaceExtends` | autoscaling/autoscaling.go:185-196 | placing newcomers keeps every existing entry and adds only slot keys 1..count |
| `RefreshProperties.ReconcileKeys` | autoscaling/autoscaling.go:164-221 | the rebuilt table holds exactly slots 1..count plus the pinned keys, and pinned records are copied unchanged (old IP and plugins included) |
| `RefreshProperties.ReconcileKeepsRecorded` | autoscaling/autoscaling.go:164-167 | a live instance that has a record stays at that key with its record |
| `RefreshProperties.ReconcileFillsSlots` | autoscaling/autoscaling.go:200-221 | every slot 1..count exists after a refresh |
| `RefreshProperties.ReconcileDropsVanished` | autoscaling/autoscaling.go:151-153 | a record whose instance is gone and whose key is not a slot 1..count disappears |
| `RefreshProperties.PlaceOrigin` | autoscaling/autoscaling.go:185-196 | every entry placing adds is a newcomer, with the plugins of its slot |
| `RefreshProperties.ReconcileRecords` | autoscaling/autoscaling.go:164-221 | every record of the rebuilt table is a pinned record as it was, a newcomer in a slot, or an empty record in a slot |
| `RefreshProperties.PlaceFromEmpty` | autoscaling/autoscaling.go:185-196 | with no slot taken, newcomers fill slots 1, 2, ... in order, and those beyond the last slot are dropped |
| `RefreshProperties.NewcomersAllNew` | autoscaling/autoscaling.go:168-182 | when no live instance has a record, every one becomes a newcomer, in order |
| `RefreshProperties.ReconcileFromEmpty` | autoscaling/autoscaling.go:164-221 | for a group with no records, the live instances take slots 1.. in inventory order with default plugins, the rest of the slots are empty, and the overflow is dropped |
| `RefreshProperties.FilledFromSlots` | autoscaling/autoscaling.go:200-221 | filling a table that holds slots 1..bound keeps them and makes the others empty |
| `RefreshProperties.NewcomerFrom` | autoscaling/autoscaling.go:163-183 | every newcomer is the fresh record of a live instance that matched no registered record |
| `RefreshProperties.NewcomerIndexOf` | autoscaling/autoscaling.go:163-183 | every live instance that matched no registered record is among the newcomers as a fresh record |
| `RefreshProperties.NewcomersDistinct` | autoscaling/autoscaling.go:163-183 | the newcomers carry distinct instance IDs when the live instances do |
| `RefreshProperties.PinnedProps` | autoscaling/autoscaling.go:165-167 | pinned records hold live, non-empty, distinct IDs, and no unmatched instance's ID is pinned |
| `RefreshProperties.FirstFreeWhenTaken` | autoscaling/autoscaling.go:186-195 | with every slot taken there is no free slot |
| `RefreshProperties.PlaceWhenFull` | autoscaling/autoscaling.go:185-196 | with every slot taken, newcomers are silently dropped and the table is unchanged |
| `RefreshProperties.PlaceOneInvariants` | autoscaling/autoscaling.go:186-195 | one placement keeps IDs non-empty and unique, and each newcomer is placed or every slot is taken |
| `RefreshProperties.PlaceInvariants` | autoscaling/autoscaling.go:185-196 | after placement, every newcomer holds a slot unless every slot is taken, and IDs stay unique |
| `RefreshProperties.PlacedShapeOfReconcile` | autoscaling/autoscaling.go:164-197 | the placed table of a refresh has the shape the fill step needs |
| `RefreshProperties.SettledOfFilled` | autoscaling/autoscaling.go:200-221 | filling a table of that shape gives a settled table |
| `RefreshProperties.ReconcileSettled` | autoscaling/autoscaling.go:164-221 | a refresh writes a settled table: each live instance in at most one slot, empty records only at slots 1..count, a live instance missing only when all slots are busy |
| `RefreshProperties.PinnedOfSettled` | autoscaling/autoscaling.go:165-167 | refreshing a settled table pins exactly its busy records |
| `RefreshProperties.PlaceOfSettled` | autoscaling/autoscaling.go:185-196 | refreshing a settled table leaves no newcomer a free slot |
| `RefreshProperties.FilledOfSettled` | autoscaling/autoscaling.go:200-221 | refilling the empty slots of a settled table gives the table back |
| `RefreshProperties.ReconcileFixpoint` | autoscaling/autoscaling.go:164-221 | a settled table is a fixpoint of the rebuild against the same instances |
| `RefreshProperties.ReconcileIdempotent` | autoscaling/autoscaling.go:164-221 | rebuilding twice against the same inventory gives the same table, whatever map order each run picks |
| `RefreshProperties.RegisteredAfterRefresh` | autoscaling/autoscaling.go:148-233 | after a refresh the group's recorded slots are exactly the rebuilt table |
| `RefreshProperties.RewriteSame` | autoscaling/autoscaling.go:224-233 | rewriting the records a store already holds changes nothing |
| `RefreshProperties.RefreshTwiceNoChange` | autoscaling/autoscaling.go:132-247 | a second refresh against the same inventory leaves every key of the store as the first wrote it |
| `AutoScalingHandlers.FirstMatch` | model/autoscaling.go:91-97 | the first configuration entry naming the group, or none exactly when no entry names it |
| `AutoScalingHandlers.FindGroup` | model/autoscaling.go:89-97 | the search loop yields the first matching entry's group name and host prefix, or "" for both |
| `AutoScalingHandlers.List` | model/autoscaling.go:19-29 | 200 with the listing exactly when the listing succeeds, else 500 with an empty body |
| `AutoScalingHandlers.Resolve` | model/autoscaling.go:32-51 | an empty alias is 400, a lookup error 500, both with status "error"; otherwise 200, "OK" and the IP |
| `AutoScalingHandlers.ConfigUpdate` | model/autoscaling.go:54-65 | always 200; "OK" exactly when the file is saved, else "NG" |
| `AutoScalingHandlers.Register` | model/autoscaling.go:68-123 | a missing parameter is 400 before the config is read, then a config error 500, an unknown group 404, a registration error 500; success is 200 with alias and record, using the first matching entry's host prefix |
| `AutoScalingHandlers.Deregister` | model/autoscaling.go:126-145 | an empty instance ID is 400 "NG"; otherwise always 200, "OK" or "NG" with the error text |
| `AutoScalingHandlers.Delete` | model/autoscaling.go:148-190 | an empty name is 400, a config error 500, an unknown group 404, a delete error 500; otherwise 200 "OK" |
| `AutoScalingHandlers.Selected` | model/autoscaling.go:209-224 | defines the groups a refresh selects, in configuration order, stopping after the first entry whose name equals the requested one |
| `AutoScalingHandlers.SelectedByName` | model/autoscaling.go:209-224 | a named refresh selects exactly the first matching entry, or nothing |
| `AutoScalingHandlers.SelectedAll` | model/autoscaling.go:209-224 | an unnamed refresh selects the configuration in order: all of it, or up to the first entry whose own name is empty |
| `AutoScalingHandlers.SelectGroups` | model/autoscaling.go:204-224 | the selection loop yields exactly the selection characterised by the two lemmas above |
| `AutoScalingHandlers.Failures` | model/autoscaling.go:233-239 | at most one message per selected group |
| `AutoScalingHandlers.FailuresComplete` | model/autoscaling.go:233-245 | the messages are exactly those of the failing groups, and there are none exactly when every group succeeds |
| `AutoScalingHandlers.RefreshGroups` | model/autoscaling.go:233-239 | the refresh loop runs every selected group in order and collects exactly their failure messages |
| `AutoScalingHandlers.Refresh` | model/autoscaling.go:193-249 | a config error is 500; an empty selection is 404; every selected group is refreshed even after failures; failures joined by "," give 500, none gives 200 "OK" |
| `AutoScalingHandlers.RefreshSucceeds` | model/autoscaling.go:240-248 | the reply is 200 exactly when every selected group refreshes |
| `Tool.HopAddress` | halib/tool.go:30 | defines a hop's text: host `:` port in decimal |
| `Tool.GetProxyJSON` | halib/tool.go:11-40 | the agent host is the first hop's text before ':'; an unparsable port after a single ':' is the Atoi error; without one the port is 6777; the hop list is the other hops followed by `host:port`, so it keeps the length; type and bytes are carried unchanged |
| `Tool.FirstHopRoundTrip` | halib/tool.go:17-23 | a first hop written as `host:port` names that host and port |
| `Tool.FirstHopDefaultPort` | halib/tool.go:24-26 | a first hop without ':' names itself and port 6777 |
| `Tool.HopAddressSplits` | halib/tool.go:30 | `host:port` splits into the host and the port's decimal text, which parses back |
| `Proxy.Uri` | model/proxy.go:68 | defines the outbound URI: `https://` host `:` port `/` request type |
| `Proxy.PostToAgent` | model/proxy.go:67-86 | a received response is passed through without error; a timeout is 504, any other transport or body-read failure 502, both with an empty body and the error |
| `Proxy.NextHop` | model/proxy.go:46-54 | the next host is the text before the first ':'; the port is parsed only when the hop has exactly one ':', and is 6777 otherwise or when it does not parse |
| `Proxy.Popped` | model/proxy.go:42 | popping drops exactly the first hop, keeping the rest in order, and keeps type and body |
| `Proxy.Forwarded` | model/proxy.go:36-45 | the last hop forwards the original type and body; an earlier hop forwards a "proxy" request holding the remaining hops |
| `Proxy.Proxy` | model/proxy.go:28-65 | the reply has postToAgent's status; the body is the next agent's verbatim, or on error an unknown (3) monitor response with the error text |
| `Proxy.AtHop` | model/proxy.go:42 | the agent at position k of a chain receives the hops from k on, with the original type and body |
| `Proxy.ChainForwards` | model/proxy.go:36-45 | along a chain each agent forwards a "proxy" request holding exactly the hops ahead of it, and the last forwards the original type and body |
| `Proxy.ChainDelivers` | model/proxy.go:34-54 | a request built by GetProxyJSON reaches the requested host and port with the caller's type and bytes |
| `Collect.ParseLines` | collect/metrics.go:232-255 | defines the parse of the lines in order: lines without three fields are skipped, the first malformed one fails, and otherwise each key keeps its last value with the running maximum timestamp |
| `Collect.ParseLinesErrorStays` | collect/metrics.go:237-245 | once a line fails, the whole parse fails with that error |
| `Collect.ParseLinesError` | collect/metrics.go:232-245 | parsing fails exactly when some three-field line has an unparsable value or timestamp, and the error names the first such line |
| `Collect.ParseLinesKeys` | collect/metrics.go:232-253 | on success the keys are exactly the keys of the three-field lines |
| `Collect.ParseLinesLastWins` | collect/metrics.go:250-252 | on success each key holds the value of the last line with that key |
| `Collect.ParseLinesTimestamp` | collect/metrics.go:246-248 | on success the timestamp is the largest line timestamp, or 0 |
| `Collect.ParseMetricData` | collect/metrics.go:228-256 | the loop computes the line-by-line parse of the output split on newlines |
| `Collect.ParseSkipsShortLine` | collect/metrics.go:233-236 | "hoge" gives no metrics, timestamp 0 and no error |
| `Collect.ParseOneLine` | collect/metrics.go:232-255 | one well-formed line gives its key, value and timestamp |
| `Collect.DeleteEntries` | collect/metrics.go:117-120 | the delete loop removes exactly the visited keys and keeps the store sorted |
| `Collect.RetiredEntries` | collect/metrics.go:112-116 | the range iterator visits exactly the stored keys from "m-0" up to, not including, `m-{now-lifetime}` in byte order |
| `Collect.MetricsKey` | collect/metrics.go:79 | defines the key of second t: `m-` followed by t in decimal |
| `Collect.Prior` | collect/metrics.go:78-86 | defines the batch already stored under this second's key: nothing when the key is missing or does not decode |
| `Collect.Retired` | collect/metrics.go:111-116 | defines the retirement range: keys from `m-0` up to, and not including, the key of `now - lifetime`, compared byte by byte |
| `Collect.SavedStore` | collect/metrics.go:78-129 | defines the store after a save: this second's key holds the earlier batch followed by the new one, then every key in the retirement range is removed |
| `Collect.SaveMetrics` | collect/metrics.go:70-137 | the batch is appended under `m-{now}` after any batch of that second, then every key in the retirement range is deleted; it always returns nil |
| `Collect.SavedBatch` | collect/metrics.go:78-98 | when this second's key is not in the retirement range, it holds the old batch followed by the new one |
| `Collect.SavedOthers` | collect/metrics.go:111-129 | any other key is kept unchanged unless it is in the byte range, in which case it is gone |
| `Collect.FreshBatchRetired` | collect/metrics.go:111-116 | at second 10000000000 the batch just saved is deleted by the same call |
| `Collect.RetiredByTime` | collect/metrics.go:106-116 | defines the intended retirement: an `m-` key whose second is older than `now - lifetime` |
| `Collect.SavedStoreByTime` | collect/metrics.go:78-129 | defines the store after a save with the intended retirement: the same append, then every key retired by time removed |
| `Collect.RetiredByTimeExact` | collect/metrics.go:111 | with retirement by time, the batch of second t is retired exactly when t is older than the lifetime |
| `Collect.SavedByTime` | collect/metrics.go:111-120 | with retirement by time, the batch just saved always survives with the old batch before it |
| `Collect.Decodable` | collect/metrics.go:169-173 | at most as many decodable entries as scanned ones |
| `Collect.Taken` | collect/metrics.go:162-181 | a drain takes the decodable entries in key order: `limit` of them (or all if fewer) when `limit > 0`, all otherwise |
| `Collect.DecodableMembers` | collect/metrics.go:169-173 | the decodable entries are exactly the scanned entries whose value decodes, still in key order |
| `Collect.Drain` | collect/metrics.go:158-182 | the collected batches are those of the taken entries in key order, the remaining store stays sorted and loses exactly the taken keys |
| `Collect.GetCollectedMetricsWithLimit` | collect/metrics.go:145-189 | returns the concatenated batches of the taken entries and deletes exactly those keys; undecodable batches are neither returned, deleted nor counted |
| `Collect.GetCollectedMetrics` | collect/metrics.go:140-142 | an unlimited drain: every decodable batch is returned and deleted |
| `Collect.DrainedKeys` | collect/metrics.go:158-181 | a drain deletes only decodable `m-` keys, and all of them when there is no limit |
| `Collect.KeyTime` | collect/metrics.go:320-332 | defines the time a metric key names: the number after `m-`, or 0 when it does not parse |
| `Collect.KeyTimeRoundTrip` | collect/metrics.go:320-332 | the time read back from a key that SaveMetrics writes is its second |
| `Collect.GetMetricDataBufferStatus` | collect/metrics.go:290-343 | length and capacity are the number of `m-` keys; oldest and newest are the times of the least and greatest `m-` keys in byte order, 0 when there are none; an open error gives an empty map; the store is not changed |
| `Collect.ScanEnds` | collect/metrics.go:297-310 | the first and last entries of the prefix scan are the least and greatest `m-` keys |
| `RequestStatus.FindFrom` | util/martini_plugin.go:110-117 | the first bucket of this second and URI, or none when no bucket has both |
| `RequestStatus.Bump` | util/martini_plugin.go:118-122 | the status's count rises by one (from 0 when absent), every other count is kept |
| `RequestStatus.Appended` | util/martini_plugin.go:102-135 | one request adds at most one bucket |
| `RequestStatus.BumpTotal` | util/martini_plugin.go:118-122 | raising one count raises the sum of the counter map by one |
| `RequestStatus.AppendedCounts` | util/martini_plugin.go:102-135 | each request adds exactly one to the sum of all counts and keeps one bucket per second and URI |
| `RequestStatus.AppendedCount` | util/martini_plugin.go:110-134 | the bucket of the request's second and URI gets its status count raised (a new one at the end starts at 1); every other bucket is unchanged |
| `RequestStatus.Collected` | util/martini_plugin.go:147-151 | collection never adds buckets |
| `RequestStatus.CollectedMembers` | util/martini_plugin.go:138-153 | collection keeps exactly the buckets at most `lifetimeMinutes*60` seconds old, and one bucket per second and URI |
| `RequestStatus.MergeCounts` | util/martini_plugin.go:174-181 | merged counts hold both key sets, each count the sum of the two |
| `RequestStatus.AddBucket` | util/martini_plugin.go:170-190 | a bucket's counts are merged into the entry of its URI, or it is appended as a new entry at the end |
| `RequestStatus.Summary` | util/martini_plugin.go:167-217 | defines one window's summary: the buckets in the window added in bucket order, merging by URI |
| `RequestStatus.SummaryContents` | util/martini_plugin.go:167-217 | a summary has one entry per URI with a bucket in the window and no others, and each count is the sum over that URI's buckets |
| `RequestStatus.SummaryOrder` | util/martini_plugin.go:167-217 | summary entries come in the order their URIs first appear in the window |
| `RequestStatus.RequestStatusManager.constructor` | util/martini_plugin.go:92-99 | a new manager holds no buckets |
| `RequestStatus.RequestStatusManager.Append` | util/martini_plugin.go:102-135 | the buckets become the appended buckets; one bucket per second and URI is kept; the total rises by one |
| `RequestStatus.RequestStatusManager.GarbageCollect` | util/martini_plugin.go:138-153 | the buckets become the fresh ones in their order |
| `RequestStatus.RequestStatusManager.GetStatus` | util/martini_plugin.go:156-219 | Last1 and Last5 are the summaries of the buckets at most 60 and 300 seconds before `fromWhen`; no buckets give two empty lists; the buckets are not changed |
| `RequestStatus.Tally` | util/martini_plugin.go:170-190 | the inner loops add one bucket to a window summary |
| `RequestStatus.MergeInto` | util/martini_plugin.go:174-181 | the count loop adds two counter maps key by key |
| `Acl.ParseIPv4` | util/martini_plugin.go:25 | defines address parsing: four dot-separated decimal fields of at most 255 each, and anything else unparsable |
| `Acl.ParseFormat` | util/martini_plugin.go:25 | the dotted-quad text of every IPv4 address parses back to it |
| `Acl.ParseCIDR` | util/martini_plugin.go:41 | a parsed network has a prefix length of at most 32 and its text holds a '/' |
| `Acl.InNetwork` | util/martini_plugin.go:57 | defines network membership: the host and the network address agree on their first `bits` bits |
| `Acl.Matches` | util/martini_plugin.go:50-63 | defines when a parsed entry admits a host: its address equals the host, or it is a network that contains the host |
| `Acl.ParseRule` | util/martini_plugin.go:41-49 | an entry read as a network has a prefix length of at most 32 |
| `Acl.Steps` | util/martini_plugin.go:37-64 | each entry of the list is classified for the host, in order |
| `Acl.Classify` | util/martini_plugin.go:37-63 | defines one entry's effect: an empty or non-matching entry goes on, a matching one lets the request through, an unparsable one stops with a format error |
| `Acl.ScanFrom` | util/martini_plugin.go:37-66 | defines the scan: the first entry that does not go on decides, and the end of the list refuses with 403 |
| `Acl.Decision` | util/martini_plugin.go:19-67 | defines the middleware's verdict: 403 for an unparsable remote, a pass for loopback, otherwise the scan |
| `Acl.Check` | util/martini_plugin.go:19-67 | the middleware's loop computes the decision: unparsable remote address 403, 127.0.0.1 passes, then the ordered scan |
| `Acl.ScanPasses` | util/martini_plugin.go:37-64 | the request passes exactly when some entry admits it and every entry before it skips |
| `Acl.ScanSkipped` | util/martini_plugin.go:37-48 | skipped entries do not change the outcome, and the first non-skipping entry, if unparsable, gives 503 naming it |
| `Acl.FormatErrorSource` | util/martini_plugin.go:41-48 | a 503 always comes from an unparsable entry the scan reached |
| `Acl.ScanDenied` | util/martini_plugin.go:65-66 | 403 "Access Denied" exactly when every entry skips |
| `Acl.ClassifyCases` | util/martini_plugin.go:38-63 | an entry skips when empty or parsed without matching, admits when it parses and matches, and is bad otherwise |
| `Acl.LoopbackPasses` | util/martini_plugin.go:32-34 | requests from 127.0.0.1 always pass, whatever the list |
| `Acl.FormatErrorFirst` | util/martini_plugin.go:44-47 | the list ["FAIL"] refuses any other parsable host with 503 "ACL format error: FAIL" |
| `Acl.ParseCIDRFormat` | util/martini_plugin.go:41 | a network written as its dotted quad, '/', and prefix length parses back to that network |
| `Acl.Network24` | util/martini_plugin.go:57 | a /24 network contains exactly the addresses sharing its first three fields |
| `Acl.OneNetwork` | util/martini_plugin.go:37-66 | with one /24 entry a host other than 127.0.0.1 passes exactly when it shares the first three fields, and is denied 403 otherwise |
| `Monitor.ChosenFrom` | model/monitor.go:91-100 | the chosen plugin is one of the joined candidates |
| `Monitor.ChosenFromCases` | model/monitor.go:91-100 | the chosen plugin is the first existing candidate, or the last candidate tried when none exists |
| `Monitor.Message` | model/monitor.go:104-109 | the message is stdout exactly when stdout is non-empty and stderr empty; otherwise it ends in `stderr=` followed by stderr, after stdout when stdout is non-empty |
| `Monitor.ExecPluginCommand` | model/monitor.go:87-112 | the search loop picks the chosen plugin; exit status and error are the runner's, and the message is shaped from its output |
| `Monitor.Reply` | model/monitor.go:66-84 | an exec error is 500 with return value 2 and the error text and no snapshot; otherwise 200 with exit status and message, and a snapshot signal exactly when the status is not 0 |
| `Monitor.Monitor` | model/monitor.go:59-85 | the reply for the chosen plugin's run, as above |
| `Monitor.PermitStep` | model/monitor.go:177-193 | permitted exactly when the interval is not negative and the clock reading taken for the decision is at least the interval after the last stamp; then the stamp is renewed, otherwise kept |
| `Monitor.SaveStatePermit.constructor` | model/monitor.go:29-39 | the last stamp starts at 0 with the configured interval |
| `Monitor.SaveStatePermit.IsPermitSaveState` | model/monitor.go:177-193 | one call is one permit step on the package state; the interval is unchanged |
| `Monitor.ReplayAfterGrant` | model/monitor.go:186-191 | between two grants the state holds the stamp of the first |
| `Monitor.GrantsSpaced` | model/monitor.go:186-192 | two consecutive granted calls are at least the interval apart, and nothing is granted with a negative interval |
| `MachineState.ListMachieState` | model/machine_state.go:13-36 | an open error is 204 with the error; no `s-` key is 404 with no body; otherwise 200 with the keys of the `s-` scan; the store is not changed |
| `MachineState.ListedKeys` | model/machine_state.go:21-28 | the listed keys are exactly the stored keys starting with `s-`, in ascending byte order |
| `MachineState.GetMachineState` | model/machine_state.go:38-49 | 200 exactly when the key is stored, answering its value verbatim whatever its prefix; otherwise 404 with the store's not-found error |
| `MachineState.ReadAfterPut` | model/machine_state.go:41-48 | a value just put under a key is what a read of that key answers |

## Left out

- HTTP serving, martini routing, TLS, the CLI and daemon supervision are not modelled. They are I/O.
- JSON, gob and YAML encoding are not modelled. Records are kept as typed values. A gob decoding failure is a stored value of the wrong shape: `Db.DecodeInstance` gives the zero record for it, as the slot scan does when it ignores the decode error, and `Db.DecodeBatch` gives nothing, which is the drain's skip condition. JSON bodies are reply datatypes.
- Real network, AWS SDK and process calls are not modelled. Their outcomes are parameters: `Aws.AwsClient`, `Proxy.Transport`, and the `run` function of `Monitor`.
- Floating point is not modelled. `strconv.ParseFloat` is the `Collect.FloatParser` parameter, and metric values are reals.
- Concurrency is not modelled: the mutexes, the `saveStateChan` goroutine and the request-status goroutines. Each locked method is modelled as one sequential call.
- `saveMachineState` is not modelled. It uses boltdb, `db.TimeToKey` and command execution.
- `SetProxyTimeout` is left out. It only sets the HTTP client's timeout, which shows up here as the `Timeout` outcome of `Proxy.Transport`.
- `SaveAutoScalingConfig` and `GetAutoScalingConfig` (file and YAML) are parameters of the handlers. So are `AliasToIP`, `RegisterAutoScalingInstance`, `DeregisterAutoScalingInstance` and `DeleteAutoScaling`, whose bodies are not part of this model.
- `AutoScaling.RefreshAutoScalingInstances`: the source ignores the gob-encode error of each record; the model assumes encoding succeeds.
- `AutoScaling.RefreshAutoScalingInstances`: on a failed batch write or commit the source returns without discarding the transaction, so the transaction stays open and keeps the store's write lock, and later writers would block. The model does not capture this: it only promises that the contents are unchanged and leaves the store usable.
- `Aws.DescribeAutoScalingInstances`: a reservation with no instance, on which the source would panic, is excluded by the `Reservation` type.
- `Collect.SaveMetrics`: store faults are not modelled. The source logs failed transaction opens and commits and exits on a failed first commit; the model's store never fails. A gob-encode error is not modelled either.
- `Collect.GetCollectedMetricsWithLimit`: store faults (a failed open or commit, which the source only logs) are not modelled.
- `MachineState.GetMachineState`: store read faults are not modelled. The source answers 404 with the text of any `Get` error, so a fault other than a missing key, such as a corrupt table or a closed store, gives its own text; the model's store cannot fail, so its 404 always carries the not-found error.
- `Collect.GetMetricDataBufferStatus`: the fields of the status map are the `BufferStatus` record. A key whose time does not parse reads as 0, which is the value the source keeps after logging the error.
- `Acl.Check`: addresses are IPv4 only, so IPv6 hosts and entries are unparsable here. Leading zeros in a field are accepted, as in Go before 1.17. `net.SplitHostPort` is left out, and with it the fatal exit on a malformed `RemoteAddr`: the model takes the host part.
- `AutoScalingHandlers.Refresh`: the outcome of refreshing a group is a function `refresh` of its configuration entry. When an unnamed refresh selects the same entry twice, the source calls `RefreshAutoScalingInstances` twice, against a store and an AWS state that may have changed in between, so the two outcomes may differ; the model gives both the same outcome. `AutoScalingHandlers.RefreshGroups` and `AutoScalingHandlers.Failures` share this.
- `Tool.GetProxyJSON`: the text of the Atoi error does not reproduce `strconv.Quote`'s escaping of unusual characters.
- `Tool.GetProxyJSON`: an empty hop list, on which the source panics when it reads the first hop, is excluded by the precondition.
- `Proxy.PostToAgent`: the source ignores the error of `http.NewRequest` and then sets a header on the nil request, so a URI that does not parse, such as one whose request type is `%zz`, makes the agent panic without sending anything. The model passes every URI to the transport.
- `Proxy.Proxy`: a request whose `proxy_hostport` is empty, on which the source panics when it reads the first hop, is excluded by the precondition. A client can send such a request, so the panic path is not modelled.
- `RequestStatus.RequestStatusManager.Append`: counts are unbounded `nat`s. The source's `uint64` counters would wrap only after 2^64 requests in one bucket.
- `Monitor.ExecPluginCommand`: `path.Join` and `os.Stat` are the `join` and `exists` parameters.
- `Monitor.SaveStatePermit.IsPermitSaveState`: the clock is two parameters, `checkedAt` for the comparison and `stampedAt` for the new stamp, because the source reads the time twice.
- The `model/metric.go` wrappers are left out. `Metric` drains at most 60 batches, which is `Collect.GetCollectedMetricsWithLimit` with limit 60.
- Some tests expect behaviour that the code does not have, so it is not modelled:
  - alias-aware proxy dispatch (model/proxy_test.go:347-890);
  - a monitor reply of 503 on a plugin timeout, and an empty message for a missing plugin (model/monitor_test.go:127-179). A missing plugin does give 200 with return value 127, because the shell that runs it exits with 127, but the message is `stdout=, stderr=` followed by the shell's error;
  - a bolt store and `GetMetricDataBufferStatus(bool)` (collect/metrics_test.go).
- The slot scan prefix of one group can match another group's slots. The prefix `ag-web-` also matches `ag-web-db-1`, so a refresh of group prefix `web` rewrites the slots of group prefix `web-db`. The model keeps this behaviour as written.

## Findings

| source | as written | input that shows it | evidently intended | confidence | as-written member | corrected member |
|---|---|---|---|---|---|---|
| collect/metrics.go:111-116 | metric batches are retired by comparing keys `m-{seconds}` byte by byte against `m-{now-lifetime}` | now = 10000000000: the key `m-10000000000` sorts before the limit `m-9999395200`, so the batch just saved is deleted at once | retire a batch when the second it names is older than the lifetime | medium; not executed | `Collect.FreshBatchRetired` | `Collect.SavedByTime` |

`Collect.SaveMetrics` models the code as written: retirement by byte range, specified by `Collect.SavedStore`. The intended behaviour is `Collect.SavedStoreByTime`, which retires by numeric time. `Collect.RetiredByTimeExact` and `Collect.SavedByTime` are proved about it. The two agree as long as every key has the same number of digits, which holds for Unix seconds between 2001 and 2286.
