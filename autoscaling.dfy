/** autoscaling/autoscaling.go: the slot table of an auto-scaling group.

    Slot i of a group with host prefix h is the key "ag-h-i" (1 <= i <=
    count). A refresh rebuilds the table from the live inventory: a live
    instance already recorded keeps its key, a newcomer takes the lowest
    free slot (inheriting that slot's plugins), a newcomer with no free slot
    is dropped, and every remaining slot gets an empty record. The
    rebuilt table is specified by `Reconcile`; `ValidChoice` captures which
    recorded key each live instance is matched to, since the source picks
    among duplicate matches in Go's unspecified map order. */
module AutoScaling {
  import opened Wrappers
  import opened Text
  import opened HaLib
  import opened Db
  import opened Aws

  /** The plugin list of a fresh record: one empty plugin. */
  const DefaultMetricPlugins: seq<MetricPlugin> := [MetricPlugin("", "")]

  // ---------------------------------------------------------------------
  // Keys

  /** fmt.Sprintf("ag-%s-", hostPrefix): the prefix every slot key of the
      group starts with. */
  function SlotPrefix(hostPrefix: string): string
  {
    "ag-" + hostPrefix + "-"
  }

  /** fmt.Sprintf("ag-%s-%d", hostPrefix, i). */
  function SlotKey(hostPrefix: string, i: nat): (key: string)
    ensures HasPrefix(key, SlotPrefix(hostPrefix))
    ensures HasPrefix(key, "ag-")
  {
    var p := SlotPrefix(hostPrefix);
    assert (p + NatToString(i))[..3] == "ag-";
    p + NatToString(i)
  }

  /** Distinct slot numbers give distinct keys. */
  lemma SlotKeyInjective(hostPrefix: string, i: nat, j: nat)
    requires SlotKey(hostPrefix, i) == SlotKey(hostPrefix, j)
    ensures i == j
  {
    var p := SlotPrefix(hostPrefix);
    assert SlotKey(hostPrefix, i)[|p|..] == NatToString(i);
    assert SlotKey(hostPrefix, j)[|p|..] == NatToString(j);
    NatToStringInjective(i, j);
  }

  /** The keys of slots 1..count (none when count < 1). */
  ghost function SlotKeys(hostPrefix: string, count: int): set<string>
  {
    set i: nat | 1 <= i <= count :: SlotKey(hostPrefix, i)
  }

  lemma SlotKeysStep(hostPrefix: string, i: nat)
    ensures SlotKeys(hostPrefix, i + 1) == SlotKeys(hostPrefix, i) + {SlotKey(hostPrefix, i + 1)}
  {
  }

  /** The alias of a slot key: strings.TrimPrefix(key, "ag-"). */
  function Alias(key: string): string
  {
    TrimPrefix(key, "ag-")
  }

  /** The slot key of an alias. */
  function AliasKey(alias: string): string
  {
    "ag-" + alias
  }

  /** Aliases and slot keys correspond one to one. */
  lemma AliasRoundTrip(key: string, alias: string)
    ensures HasPrefix(key, "ag-") ==> AliasKey(Alias(key)) == key
    ensures Alias(AliasKey(alias)) == alias
    ensures AliasKey(alias) == key ==> alias == Alias(key)
  {
    var k := AliasKey(alias);
    assert k[..3] == "ag-" && k[3..] == alias;
  }

  // ---------------------------------------------------------------------
  // Reading the table

  ghost function Decoded(m: map<string, StoredValue>): map<string, InstanceData>
  {
    map k | k in m :: DecodeInstance(m[k])
  }

  /** The group's recorded slots: what the prefix scan "ag-{hostPrefix}-"
      finds, decoded with decoding errors ignored. */
  ghost function Registered(store: seq<Entry>, hostPrefix: string): map<string, InstanceData>
  {
    Decoded(ToMap(WithPrefix(store, SlotPrefix(hostPrefix))))
  }

  /** The recorded slots are the store's keys with the group's prefix. */
  lemma RegisteredKeys(store: seq<Entry>, hostPrefix: string)
    requires Sorted(store)
    ensures forall k :: k in Registered(store, hostPrefix) <==>
      k in ToMap(store) && HasPrefix(k, SlotPrefix(hostPrefix))
    ensures forall k :: k in Registered(store, hostPrefix) ==>
      Registered(store, hostPrefix)[k] == DecodeInstance(ToMap(store)[k])
  {
    WithPrefixMap(store, SlotPrefix(hostPrefix));
  }

  /** One more entry of a sorted prefix scan adds its key to the decoded map. */
  lemma ScanStep(scan: seq<Entry>, i: nat, hostPrefix: string)
    requires Sorted(scan) && i < |scan|
    requires forall e :: e in scan ==> HasPrefix(e.key, SlotPrefix(hostPrefix))
    ensures HasPrefix(scan[i].key, "ag-")
    ensures Decoded(ToMap(scan[..i + 1])) == Decoded(ToMap(scan[..i]))[scan[i].key := DecodeInstance(scan[i].value)]
  {
    NextKeyIsNew(scan, i);
    assert scan[..i + 1] == scan[..i] + [scan[i]];
    ToMapSnoc(scan[..i], scan[i]);
    assert scan[i] in scan;
    assert scan[i].key[..3] == SlotPrefix(hostPrefix)[..3];
  }

  /** makeRegisteredInstances */
  method MakeRegisteredInstances(transaction: seq<Entry>, hostPrefix: string)
    returns (registeredInstances: map<string, InstanceData>)
    requires Sorted(transaction)
    ensures registeredInstances == Registered(transaction, hostPrefix)
  {
    var scan := WithPrefix(transaction, SlotPrefix(hostPrefix));
    WithPrefixMembers(transaction, SlotPrefix(hostPrefix));
    registeredInstances := map[];
    for i := 0 to |scan|
      invariant registeredInstances == Decoded(ToMap(scan[..i]))
    {
      ScanStep(scan, i, hostPrefix);
      registeredInstances := registeredInstances[scan[i].key := DecodeInstance(scan[i].value)];
    }
    assert scan[..|scan|] == scan;
  }

  /** `data` lists the slots `registered` holds, keyed by alias. */
  ghost predicate ListsSlots(data: map<string, InstanceData>, registered: map<string, InstanceData>)
  {
    (forall alias :: alias in data <==> AliasKey(alias) in registered) &&
    (forall alias :: alias in data ==> data[alias] == registered[AliasKey(alias)])
  }

  lemma ListsSlotsStep(data: map<string, InstanceData>, registered: map<string, InstanceData>,
                       key: string, d: InstanceData)
    requires ListsSlots(data, registered) && HasPrefix(key, "ag-")
    ensures ListsSlots(data[Alias(key) := d], registered[key := d])
  {
    var data' := data[Alias(key) := d];
    var registered' := registered[key := d];
    forall a
      ensures a in data' <==> AliasKey(a) in registered'
      ensures a in data' ==> data'[a] == registered'[AliasKey(a)]
    {
      AliasRoundTrip(key, a);
      if a != Alias(key) {
        assert AliasKey(a) != key;
        assert a in data' <==> a in data;
      }
    }
  }

  /** The inner loop of AutoScaling: one group's slots by alias. */
  method ScanGroup(transaction: seq<Entry>, hostPrefix: string)
    returns (instanceData: map<string, InstanceData>)
    requires Sorted(transaction)
    ensures ListsSlots(instanceData, Registered(transaction, hostPrefix))
  {
    var scan := WithPrefix(transaction, SlotPrefix(hostPrefix));
    WithPrefixMembers(transaction, SlotPrefix(hostPrefix));
    instanceData := map[];
    for i := 0 to |scan|
      invariant ListsSlots(instanceData, Decoded(ToMap(scan[..i])))
    {
      ScanStep(scan, i, hostPrefix);
      var key := scan[i].key;
      var value := DecodeInstance(scan[i].value);
      ListsSlotsStep(instanceData, Decoded(ToMap(scan[..i])), key, value);
      instanceData := instanceData[Alias(key) := value];
    }
    assert scan[..|scan|] == scan;
  }

  /** AutoScaling: the slot listing of every configured group, read inside
      a transaction that is then discarded. `config` is the configuration
      file as read (or the error reading it), `openError` the
      OpenTransaction result. */
  method ListAutoScaling(db: DB, config: Result<seq<AutoScalingConfig>>, openError: Option<string>)
    returns (r: Result<seq<AutoScalingData>>)
    requires db.Valid()
    ensures config.Err? ==> r == Err(config.error)
    ensures config.Ok? && openError.Some? ==> r == Err(openError.value)
    ensures config.Ok? && openError.None? ==>
      r.Ok? && |r.value| == |config.value| &&
      forall i :: 0 <= i < |config.value| ==>
        r.value[i].autoScalingGroupName == config.value[i].autoScalingGroupName &&
        ListsSlots(r.value[i].instanceData, Registered(db.entries, config.value[i].hostPrefix))
  {
    if config.Err? {
      return Err(config.error);
    }
    if openError.Some? {
      return Err(openError.value);
    }
    var transaction := db.entries;
    var autoScalings := config.value;
    var autoScaling: seq<AutoScalingData> := [];
    for i := 0 to |autoScalings|
      invariant |autoScaling| == i
      invariant forall j :: 0 <= j < i ==>
        autoScaling[j].autoScalingGroupName == autoScalings[j].autoScalingGroupName &&
        ListsSlots(autoScaling[j].instanceData, Registered(transaction, autoScalings[j].hostPrefix))
    {
      var a := autoScalings[i];
      var instanceData := ScanGroup(transaction, a.hostPrefix);
      autoScaling := autoScaling + [AutoScalingData(a.autoScalingGroupName, instanceData)];
    }
    r := Ok(autoScaling);
  }

  // ---------------------------------------------------------------------
  // Matching live instances to recorded slots

  /** `c` is a possible answer of checkRegistered for `instance`: a recorded
      key holding its instance ID, or None when no record holds it. */
  ghost predicate ChoiceFor(registered: map<string, InstanceData>, instance: Ec2Instance, c: Option<string>)
  {
    if c.Some? then c.value in registered && registered[c.value].instanceId == instance.instanceId
    else forall k :: k in registered ==> registered[k].instanceId != instance.instanceId
  }

  ghost predicate ValidChoice(registered: map<string, InstanceData>, live: seq<Ec2Instance>, choice: seq<Option<string>>)
  {
    |choice| == |live| &&
    forall j :: 0 <= j < |live| ==> ChoiceFor(registered, live[j], choice[j])
  }

  /** checkRegistered: scans the records in Go's unspecified map order and
      stops at the first one holding the instance's ID. */
  method CheckRegistered(instance: Ec2Instance, registeredInstances: map<string, InstanceData>)
    returns (isRegistered: bool, registeredKey: string)
    ensures isRegistered <==>
      (exists k :: k in registeredInstances && registeredInstances[k].instanceId == instance.instanceId)
    ensures isRegistered ==> ChoiceFor(registeredInstances, instance, Some(registeredKey))
    ensures !isRegistered ==> ChoiceFor(registeredInstances, instance, None) && registeredKey == ""
  {
    isRegistered, registeredKey := false, "";
    var unvisited := registeredInstances.Keys;
    while unvisited != {}
      invariant unvisited <= registeredInstances.Keys
      invariant forall k :: k in registeredInstances && k !in unvisited ==>
        registeredInstances[k].instanceId != instance.instanceId
      decreases unvisited
    {
      var key :| key in unvisited;
      if instance.instanceId == registeredInstances[key].instanceId {
        return true, key;
      }
      unvisited := unvisited - {key};
    }
  }

  /** The record a newcomer starts with. */
  function NewRecord(instance: Ec2Instance): (d: InstanceData)
    ensures d.instanceId == instance.instanceId && d.ip == instance.privateIpAddress
    ensures d.metricPlugins == DefaultMetricPlugins
  {
    InstanceData(instance.instanceId, instance.privateIpAddress, DefaultMetricPlugins)
  }

  /** The records kept at their key because their instance is still live. */
  ghost function Pinned(registered: map<string, InstanceData>, choice: seq<Option<string>>): map<string, InstanceData>
  {
    map k | k in registered && Some(k) in choice :: registered[k]
  }

  /** The live instances no record holds, in inventory order. */
  ghost function Newcomers(live: seq<Ec2Instance>, choice: seq<Option<string>>): seq<InstanceData>
    requires |choice| == |live|
  {
    if live == [] then []
    else
      var n := |live| - 1;
      Newcomers(live[..n], choice[..n]) + (if choice[n].None? then [NewRecord(live[n])] else [])
  }

  /** The first loop of RefreshAutoScalingInstances: pins recorded live
      instances and collects the newcomers. */
  method Classify(autoScalingInstances: seq<Ec2Instance>, registeredInstances: map<string, InstanceData>)
    returns (actualInstances: map<string, InstanceData>, newInstances: seq<InstanceData>,
             ghost choice: seq<Option<string>>)
    ensures ValidChoice(registeredInstances, autoScalingInstances, choice)
    ensures actualInstances == Pinned(registeredInstances, choice)
    ensures newInstances == Newcomers(autoScalingInstances, choice)
  {
    actualInstances, newInstances, choice := map[], [], [];
    for j := 0 to |autoScalingInstances|
      invariant ValidChoice(registeredInstances, autoScalingInstances[..j], choice)
      invariant actualInstances == Pinned(registeredInstances, choice)
      invariant newInstances == Newcomers(autoScalingInstances[..j], choice)
    {
      var instance := autoScalingInstances[j];
      var isRegistered, key := CheckRegistered(instance, registeredInstances);
      ghost var c := if isRegistered then Some(key) else None;
      ClassifyStep(registeredInstances, autoScalingInstances, j, choice, c);
      if isRegistered {
        actualInstances := actualInstances[key := registeredInstances[key]];
      } else {
        newInstances := newInstances + [NewRecord(instance)];
      }
      choice := choice + [c];
    }
    assert autoScalingInstances[..|autoScalingInstances|] == autoScalingInstances;
  }

  /** One more live instance classified with answer `c`. */
  lemma ClassifyStep(registered: map<string, InstanceData>, live: seq<Ec2Instance>, j: nat,
                     choice: seq<Option<string>>, c: Option<string>)
    requires j < |live| && ValidChoice(registered, live[..j], choice) && ChoiceFor(registered, live[j], c)
    ensures ValidChoice(registered, live[..j + 1], choice + [c])
    ensures Newcomers(live[..j + 1], choice + [c]) ==
      Newcomers(live[..j], choice) + (if c.None? then [NewRecord(live[j])] else [])
    ensures Pinned(registered, choice + [c]) ==
      if c.Some? then Pinned(registered, choice)[c.value := registered[c.value]] else Pinned(registered, choice)
  {
    var prefix := live[..j + 1];
    assert prefix[..j] == live[..j] && prefix[j] == live[j];
    assert (choice + [c])[..j] == choice;
    forall i | 0 <= i < j + 1
      ensures ChoiceFor(registered, prefix[i], (choice + [c])[i])
    {
      if i < j {
        assert prefix[i] == live[..j][i];
      }
    }
    forall k
      ensures (Some(k) in choice + [c]) <==> (Some(k) in choice || c == Some(k))
    {
    }
  }

  // ---------------------------------------------------------------------
  // Placing newcomers and filling empty slots

  /** The lowest slot number in from..count whose key is not taken. */
  function FirstFreeFrom(actual: map<string, InstanceData>, hostPrefix: string, count: int, from: nat): (r: Option<nat>)
    ensures r.Some? ==>
      from <= r.value <= count && SlotKey(hostPrefix, r.value) !in actual &&
      (forall i: nat :: from <= i < r.value ==> SlotKey(hostPrefix, i) in actual)
    ensures r.None? ==> forall i: nat :: from <= i <= count ==> SlotKey(hostPrefix, i) in actual
    decreases if from <= count then count - from + 1 else 0
  {
    if from > count then None
    else if SlotKey(hostPrefix, from) !in actual then Some(from)
    else FirstFreeFrom(actual, hostPrefix, count, from + 1)
  }

  /** A newcomer moving into `key` takes the plugins recorded for that key. */
  function Inherit(registered: map<string, InstanceData>, key: string, instance: InstanceData): (d: InstanceData)
    ensures d.instanceId == instance.instanceId && d.ip == instance.ip
    ensures d.metricPlugins == if key in registered then registered[key].metricPlugins else instance.metricPlugins
  {
    if key in registered then instance.(metricPlugins := registered[key].metricPlugins) else instance
  }

  /** One newcomer placed: it takes the lowest free slot and the plugins
      recorded for that slot, or is dropped when every slot is taken. */
  function PlaceOne(actual: map<string, InstanceData>, registered: map<string, InstanceData>,
                    instance: InstanceData, hostPrefix: string, count: int): (r: map<string, InstanceData>)
    ensures FirstFreeFrom(actual, hostPrefix, count, 1).None? ==> r == actual
    ensures FirstFreeFrom(actual, hostPrefix, count, 1).Some? ==>
      var key := SlotKey(hostPrefix, FirstFreeFrom(actual, hostPrefix, count, 1).value);
      key !in actual && r.Keys == actual.Keys + {key} &&
      (forall k :: k in actual ==> r[k] == actual[k]) &&
      r[key] == Inherit(registered, key, instance)
  {
    match FirstFreeFrom(actual, hostPrefix, count, 1)
    case None => actual
    case Some(i) =>
      var key := SlotKey(hostPrefix, i);
      actual[key := Inherit(registered, key, instance)]
  }

  /** The newcomers placed one after the other, in inventory order. */
  ghost function Place(actual: map<string, InstanceData>, registered: map<string, InstanceData>,
                       newInstances: seq<InstanceData>, hostPrefix: string, count: int): map<string, InstanceData>
  {
    if newInstances == [] then actual
    else
      var n := |newInstances| - 1;
      PlaceOne(Place(actual, registered, newInstances[..n], hostPrefix, count), registered, newInstances[n], hostPrefix, count)
  }

  /** The second loop of RefreshAutoScalingInstances. */
  method PlaceNewcomers(actual0: map<string, InstanceData>, registeredInstances: map<string, InstanceData>,
                        newInstances: seq<InstanceData>, hostPrefix: string, autoscalingCount: int)
    returns (actualInstances: map<string, InstanceData>)
    ensures actualInstances == Place(actual0, registeredInstances, newInstances, hostPrefix, autoscalingCount)
  {
    actualInstances := actual0;
    for n := 0 to |newInstances|
      invariant actualInstances == Place(actual0, registeredInstances, newInstances[..n], hostPrefix, autoscalingCount)
    {
      assert newInstances[..n + 1][..n] == newInstances[..n];
      actualInstances := PlaceInstance(actualInstances, registeredInstances, newInstances[n], hostPrefix, autoscalingCount);
    }
    assert newInstances[..|newInstances|] == newInstances;
  }

  /** The inner loop of the second loop: scan slots 1..count for the first
      free one and seat the newcomer there with the slot's plugins. */
  method PlaceInstance(actual: map<string, InstanceData>, registeredInstances: map<string, InstanceData>,
                       instance: InstanceData, hostPrefix: string, autoscalingCount: int)
    returns (actualInstances: map<string, InstanceData>)
    ensures actualInstances == PlaceOne(actual, registeredInstances, instance, hostPrefix, autoscalingCount)
  {
    actualInstances := actual;
    var i := 0;
    while i < autoscalingCount
      invariant 0 <= i
      invariant FirstFreeFrom(actual, hostPrefix, autoscalingCount, 1) ==
                FirstFreeFrom(actual, hostPrefix, autoscalingCount, i + 1)
    {
      var key := SlotKey(hostPrefix, i + 1);
      if key !in actual {
        assert FirstFreeFrom(actual, hostPrefix, autoscalingCount, 1) == Some(i + 1);
        var seated := instance;
        if key in registeredInstances {
          seated := instance.(metricPlugins := registeredInstances[key].metricPlugins);
        }
        return actual[key := seated];
      }
      i := i + 1;
    }
  }

  /** The record an unfilled slot gets: empty, keeping the slot's plugins. */
  function EmptyRecord(registered: map<string, InstanceData>, key: string): (d: InstanceData)
    ensures d.instanceId == "" && d.ip == ""
    ensures key in registered ==> d.metricPlugins == registered[key].metricPlugins
    ensures key !in registered ==> d.metricPlugins == DefaultMetricPlugins
  {
    InstanceData("", "", if key in registered then registered[key].metricPlugins else DefaultMetricPlugins)
  }

  /** `actual` with every missing slot of 1..count given its empty record. */
  ghost function Filled(actual: map<string, InstanceData>, registered: map<string, InstanceData>,
                        hostPrefix: string, count: int): map<string, InstanceData>
  {
    map k | k in actual.Keys + SlotKeys(hostPrefix, count) ::
      if k in actual then actual[k] else EmptyRecord(registered, k)
  }

  lemma FilledStep(actual: map<string, InstanceData>, registered: map<string, InstanceData>,
                   hostPrefix: string, i: nat)
    ensures var key := SlotKey(hostPrefix, i + 1);
      var f := Filled(actual, registered, hostPrefix, i);
      Filled(actual, registered, hostPrefix, i + 1) ==
        if key in f then f else f[key := EmptyRecord(registered, key)]
  {
    SlotKeysStep(hostPrefix, i);
  }

  /** The third loop of RefreshAutoScalingInstances. */
  method FillEmpty(actual0: map<string, InstanceData>, registeredInstances: map<string, InstanceData>,
                   hostPrefix: string, autoscalingCount: int)
    returns (actualInstances: map<string, InstanceData>)
    ensures actualInstances == Filled(actual0, registeredInstances, hostPrefix, autoscalingCount)
  {
    actualInstances := actual0;
    var i := 0;
    while i < autoscalingCount
      invariant 0 <= i && (i <= autoscalingCount || i == 0)
      invariant actualInstances == Filled(actual0, registeredInstances, hostPrefix, i)
    {
      var key := SlotKey(hostPrefix, i + 1);
      FilledStep(actual0, registeredInstances, hostPrefix, i);
      if key !in actualInstances {
        actualInstances := actualInstances[key := EmptyRecord(registeredInstances, key)];
      }
      i := i + 1;
    }
    assert SlotKeys(hostPrefix, i) == SlotKeys(hostPrefix, autoscalingCount);
  }

  /** The rebuilt slot table. */
  ghost function Reconcile(registered: map<string, InstanceData>, live: seq<Ec2Instance>,
                           choice: seq<Option<string>>, hostPrefix: string, count: int): map<string, InstanceData>
    requires |choice| == |live|
  {
    var placed := Place(Pinned(registered, choice), registered, Newcomers(live, choice), hostPrefix, count);
    Filled(placed, registered, hostPrefix, count)
  }

  // ---------------------------------------------------------------------
  // Writing the table

  /** The stored form of the rebuilt table. */
  ghost function Records(actual: map<string, InstanceData>): map<string, StoredValue>
  {
    map k | k in actual :: InstanceRecord(actual[k])
  }

  /** The store after a successful refresh: the group's recorded slots
      replaced by the rebuilt table; every other key untouched. */
  ghost function RefreshedStore(store: seq<Entry>, live: seq<Ec2Instance>, choice: seq<Option<string>>,
                                hostPrefix: string, count: int): map<string, StoredValue>
    requires |choice| == |live|
  {
    var registered := Registered(store, hostPrefix);
    (ToMap(store) - registered.Keys) + Records(Reconcile(registered, live, choice, hostPrefix, count))
  }

  /** The delete loop: every recorded key removed inside the transaction. */
  method DeleteKeys(transaction: seq<Entry>, keys: set<string>) returns (out: seq<Entry>)
    requires Sorted(transaction)
    ensures Sorted(out) && ToMap(out) == ToMap(transaction) - keys
  {
    out := transaction;
    var remaining := keys;
    while remaining != {}
      invariant remaining <= keys
      invariant Sorted(out) && ToMap(out) == ToMap(transaction) - (keys - remaining)
      decreases remaining
    {
      var key :| key in remaining;
      DeleteCorrect(out, key);
      out := Delete(out, key);
      remaining := remaining - {key};
    }
  }

  /** The batch: one put per slot of the rebuilt table, in map order. */
  method PutAll(transaction: seq<Entry>, actualInstances: map<string, InstanceData>) returns (out: seq<Entry>)
    requires Sorted(transaction)
    ensures Sorted(out) && ToMap(out) == ToMap(transaction) + Records(actualInstances)
  {
    out := transaction;
    var remaining := actualInstances.Keys;
    assert Records(actualInstances - remaining) == map[];
    while remaining != {}
      invariant remaining <= actualInstances.Keys
      invariant Sorted(out)
      invariant ToMap(out) == ToMap(transaction) + Records(actualInstances - remaining)
      decreases remaining
    {
      var key :| key in remaining;
      PutCorrect(out, key, InstanceRecord(actualInstances[key]));
      RecordsStep(ToMap(transaction), actualInstances, remaining, key);
      out := Put(out, key, InstanceRecord(actualInstances[key]));
      remaining := remaining - {key};
    }
    assert actualInstances - remaining == actualInstances;
  }

  /** Writing one more record of the table. */
  lemma RecordsStep(base: map<string, StoredValue>, actual: map<string, InstanceData>, remaining: set<string>, key: string)
    requires key in remaining && remaining <= actual.Keys
    ensures (base + Records(actual - remaining))[key := InstanceRecord(actual[key])] ==
      base + Records(actual - (remaining - {key}))
  {
    var before := Records(actual - remaining);
    var after := Records(actual - (remaining - {key}));
    assert after == before[key := InstanceRecord(actual[key])];
  }

  /** RefreshAutoScalingInstances. `tx` gives the results of the store's
      OpenTransaction, Write and Commit calls. On success the group's
      recorded slots are replaced by the rebuilt table; on any error the
      store is left as it was. */
  method RefreshAutoScalingInstances(db: DB, client: AwsClient, autoScalingGroupName: string,
                                     hostPrefix: string, autoscalingCount: int, tx: TxErrors)
    returns (err: Option<string>, ghost choice: seq<Option<string>>)
    requires db.Valid()
    modifies db
    ensures db.Valid()
    ensures Inventory(client, autoScalingGroupName).Err? ==>
      err == Some(Inventory(client, autoScalingGroupName).error) && db.entries == old(db.entries)
    ensures Inventory(client, autoScalingGroupName).Ok? ==>
      var live := Inventory(client, autoScalingGroupName).value;
      var registered := Registered(old(db.entries), hostPrefix);
      if tx.open.Some? then err == tx.open && db.entries == old(db.entries)
      else if tx.write.Some? then err == tx.write && db.entries == old(db.entries)
      else if tx.commit.Some? then err == tx.commit && db.entries == old(db.entries)
      else
        err == None && ValidChoice(registered, live, choice) &&
        ToMap(db.entries) == RefreshedStore(old(db.entries), live, choice, hostPrefix, autoscalingCount)
  {
    choice := [];
    var autoScalingInstances, ec2Request := DescribeAutoScalingInstances(client, autoScalingGroupName);
    if autoScalingInstances.Err? {
      return Some(autoScalingInstances.error), choice;
    }
    if tx.open.Some? {
      return tx.open, choice;
    }
    var transaction := db.entries;
    var registeredInstances := MakeRegisteredInstances(transaction, hostPrefix);
    transaction := DeleteKeys(transaction, registeredInstances.Keys);

    var live := autoScalingInstances.value;
    var actualInstances: map<string, InstanceData> := map[];
    if |live| > 0 {
      var newInstances;
      actualInstances, newInstances, choice := Classify(live, registeredInstances);
      actualInstances := PlaceNewcomers(actualInstances, registeredInstances, newInstances, hostPrefix, autoscalingCount);
    } else {
      assert Pinned(registeredInstances, choice) == map[];
    }
    actualInstances := FillEmpty(actualInstances, registeredInstances, hostPrefix, autoscalingCount);

    transaction := PutAll(transaction, actualInstances);
    if tx.write.Some? {
      return tx.write, choice;
    }
    if tx.commit.Some? {
      return tx.commit, choice;
    }
    db.entries := transaction;
    err := None;
  }
}
