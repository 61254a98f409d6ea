/** Properties of the slot table a refresh writes.

    The first part states what `Reconcile` keeps, adds and drops. The
    second part shows that a second refresh against the same inventory
    changes nothing: when the live instance IDs are non-empty and distinct, the table a
    refresh writes is `Settled`: each live instance holds at most one
    slot, the empty records sit only at slots 1..count, and a newcomer is
    missing only when every slot is busy. Refreshing a settled table
    against the same instances gives it back unchanged. */
module RefreshProperties {
  import opened Wrappers
  import opened Text
  import opened HaLib
  import opened Db
  import opened Aws
  import opened AutoScaling

  /** EC2 instance IDs: non-empty and pairwise distinct. */
  ghost predicate LiveIdsDistinct(live: seq<Ec2Instance>)
  {
    (forall j :: 0 <= j < |live| ==> live[j].instanceId != "") &&
    (forall j1, j2 :: 0 <= j1 < j2 < |live| ==> live[j1].instanceId != live[j2].instanceId)
  }

  ghost predicate NoEmptyIds(m: map<string, InstanceData>)
  {
    forall k :: k in m ==> m[k].instanceId != ""
  }

  /** No instance ID is recorded under two keys. */
  ghost predicate IdsUnique(m: map<string, InstanceData>)
  {
    forall k1, k2 :: k1 in m && k2 in m && m[k1].instanceId != "" && m[k1].instanceId == m[k2].instanceId ==> k1 == k2
  }

  ghost predicate HoldsId(m: map<string, InstanceData>, id: string)
  {
    exists k :: k in m && m[k].instanceId == id
  }

  ghost predicate SlotsTaken(m: map<string, InstanceData>, hostPrefix: string, count: int)
  {
    forall i: nat :: 1 <= i <= count ==> SlotKey(hostPrefix, i) in m
  }

  ghost predicate DistinctIds(ns: seq<InstanceData>)
  {
    forall t1, t2 :: 0 <= t1 < t2 < |ns| ==> ns[t1].instanceId != ns[t2].instanceId
  }

  /** Records without an instance are empty and sit at slots 1..count. */
  ghost predicate EmptiesAtSlots(table: map<string, InstanceData>, hostPrefix: string, count: int)
  {
    forall k :: k in table && table[k].instanceId == "" ==>
      table[k] == InstanceData("", "", table[k].metricPlugins) && k in SlotKeys(hostPrefix, count)
  }

  /** Every instance ID in the table is live. */
  ghost predicate IdsLive(table: map<string, InstanceData>, live: seq<Ec2Instance>)
  {
    forall k :: k in table && table[k].instanceId != "" ==>
      exists j :: 0 <= j < |live| && live[j].instanceId == table[k].instanceId
  }

  /** A live instance is missing only when every slot holds an instance. */
  ghost predicate MissingOnlyWhenFull(table: map<string, InstanceData>, live: seq<Ec2Instance>, hostPrefix: string, count: int)
  {
    (exists j :: 0 <= j < |live| && !HoldsId(table, live[j].instanceId)) ==>
      forall i: nat :: 1 <= i <= count ==>
        SlotKey(hostPrefix, i) in table && table[SlotKey(hostPrefix, i)].instanceId != ""
  }

  /** The shape of a table written by a refresh. */
  ghost predicate Settled(table: map<string, InstanceData>, live: seq<Ec2Instance>, hostPrefix: string, count: int)
  {
    EmptiesAtSlots(table, hostPrefix, count) && IdsLive(table, live) && IdsUnique(table) &&
    SlotsTaken(table, hostPrefix, count) && MissingOnlyWhenFull(table, live, hostPrefix, count)
  }

  // ---------------------------------------------------------------------
  // What the rebuilt table keeps, adds and drops

  /** Placing newcomers keeps every existing entry and adds slot keys only. */
  lemma {:induction false} PlaceExtends(actual: map<string, InstanceData>, registered: map<string, InstanceData>,
                                        newInstances: seq<InstanceData>, hostPrefix: string, count: int)
    ensures var p := Place(actual, registered, newInstances, hostPrefix, count);
      (forall k :: k in actual ==> k in p && p[k] == actual[k]) &&
      (forall k :: k in p ==> k in actual || k in SlotKeys(hostPrefix, count))
  {
    if newInstances != [] {
      var n := |newInstances| - 1;
      PlaceExtends(actual, registered, newInstances[..n], hostPrefix, count);
      var before := Place(actual, registered, newInstances[..n], hostPrefix, count);
      var free := FirstFreeFrom(before, hostPrefix, count, 1);
      if free.Some? {
        assert SlotKey(hostPrefix, free.value) in SlotKeys(hostPrefix, count);
      }
    }
  }

  /** The rebuilt table holds exactly slots 1..count and the pinned records,
      and every pinned record is kept as it was recorded. */
  lemma ReconcileKeys(registered: map<string, InstanceData>, live: seq<Ec2Instance>,
                      choice: seq<Option<string>>, hostPrefix: string, count: int)
    requires ValidChoice(registered, live, choice)
    ensures Reconcile(registered, live, choice, hostPrefix, count).Keys ==
      SlotKeys(hostPrefix, count) + Pinned(registered, choice).Keys
    ensures forall k :: k in Pinned(registered, choice) ==>
      Reconcile(registered, live, choice, hostPrefix, count)[k] == registered[k]
  {
    PlaceExtends(Pinned(registered, choice), registered, Newcomers(live, choice), hostPrefix, count);
  }

  /** A live instance that has a record keeps its key and its record. */
  lemma ReconcileKeepsRecorded(registered: map<string, InstanceData>, live: seq<Ec2Instance>,
                               choice: seq<Option<string>>, hostPrefix: string, count: int, j: nat)
    requires ValidChoice(registered, live, choice) && j < |live|
    requires exists k :: k in registered && registered[k].instanceId == live[j].instanceId
    ensures choice[j].Some?
    ensures var key := choice[j].value;
      key in Reconcile(registered, live, choice, hostPrefix, count) &&
      Reconcile(registered, live, choice, hostPrefix, count)[key] == registered[key] &&
      registered[key].instanceId == live[j].instanceId
  {
    assert ChoiceFor(registered, live[j], choice[j]);
    ReconcileKeys(registered, live, choice, hostPrefix, count);
    assert choice[j].value in Pinned(registered, choice);
  }

  /** Every slot 1..count has a record after a refresh. */
  lemma ReconcileFillsSlots(registered: map<string, InstanceData>, live: seq<Ec2Instance>,
                            choice: seq<Option<string>>, hostPrefix: string, count: int)
    requires ValidChoice(registered, live, choice)
    ensures forall i: nat :: 1 <= i <= count ==>
      SlotKey(hostPrefix, i) in Reconcile(registered, live, choice, hostPrefix, count)
  {
    ReconcileKeys(registered, live, choice, hostPrefix, count);
    forall i: nat | 1 <= i <= count
      ensures SlotKey(hostPrefix, i) in SlotKeys(hostPrefix, count)
    {
    }
  }

  /** A record whose instance is gone and whose key is not a slot 1..count
      disappears. */
  lemma ReconcileDropsVanished(registered: map<string, InstanceData>, live: seq<Ec2Instance>,
                               choice: seq<Option<string>>, hostPrefix: string, count: int, key: string)
    requires ValidChoice(registered, live, choice)
    requires key in registered && key !in SlotKeys(hostPrefix, count)
    requires forall j :: 0 <= j < |live| ==> live[j].instanceId != registered[key].instanceId
    ensures key !in Reconcile(registered, live, choice, hostPrefix, count)
  {
    ReconcileKeys(registered, live, choice, hostPrefix, count);
    forall j | 0 <= j < |choice|
      ensures choice[j] != Some(key)
    {
      assert ChoiceFor(registered, live[j], choice[j]);
    }
  }

  /** Every entry placing adds is a newcomer that moved into that key. */
  lemma {:induction false} PlaceOrigin(actual: map<string, InstanceData>, registered: map<string, InstanceData>,
                                       newInstances: seq<InstanceData>, hostPrefix: string, count: int)
    ensures var p := Place(actual, registered, newInstances, hostPrefix, count);
      forall k :: k in p && k !in actual ==>
        exists t :: 0 <= t < |newInstances| && p[k] == Inherit(registered, k, newInstances[t])
  {
    if newInstances != [] {
      var n := |newInstances| - 1;
      var init := newInstances[..n];
      PlaceOrigin(actual, registered, init, hostPrefix, count);
      var before := Place(actual, registered, init, hostPrefix, count);
      var p := Place(actual, registered, newInstances, hostPrefix, count);
      forall k | k in p && k !in actual
        ensures exists t :: 0 <= t < |newInstances| && p[k] == Inherit(registered, k, newInstances[t])
      {
        if k in before {
          var t :| 0 <= t < |init| && before[k] == Inherit(registered, k, init[t]);
          assert p[k] == Inherit(registered, k, newInstances[t]);
        } else {
          assert p[k] == Inherit(registered, k, newInstances[n]);
        }
      }
    }
  }

  /** Every record of the rebuilt table is a pinned record as it was, a
      newcomer in a slot (carrying that slot's recorded plugins), or an
      empty record in a slot (carrying that slot's recorded plugins). */
  lemma ReconcileRecords(registered: map<string, InstanceData>, live: seq<Ec2Instance>,
                         choice: seq<Option<string>>, hostPrefix: string, count: int)
    requires ValidChoice(registered, live, choice)
    ensures var table := Reconcile(registered, live, choice, hostPrefix, count);
      forall k :: k in table ==>
        (k in Pinned(registered, choice) && table[k] == registered[k]) ||
        (k in SlotKeys(hostPrefix, count) &&
          exists j :: 0 <= j < |live| && choice[j].None? && table[k] == Inherit(registered, k, NewRecord(live[j]))) ||
        (k in SlotKeys(hostPrefix, count) && table[k] == EmptyRecord(registered, k))
  {
    forall k | k in Reconcile(registered, live, choice, hostPrefix, count)
      ensures var table := Reconcile(registered, live, choice, hostPrefix, count);
        (k in Pinned(registered, choice) && table[k] == registered[k]) ||
        (k in SlotKeys(hostPrefix, count) &&
          exists j :: 0 <= j < |live| && choice[j].None? && table[k] == Inherit(registered, k, NewRecord(live[j]))) ||
        (k in SlotKeys(hostPrefix, count) && table[k] == EmptyRecord(registered, k))
    {
      ReconcileRecordAt(registered, live, choice, hostPrefix, count, k);
    }
  }

  /** ReconcileRecords for one key of the table. */
  lemma ReconcileRecordAt(registered: map<string, InstanceData>, live: seq<Ec2Instance>,
                          choice: seq<Option<string>>, hostPrefix: string, count: int, k: string)
    requires ValidChoice(registered, live, choice) && k in Reconcile(registered, live, choice, hostPrefix, count)
    ensures var table := Reconcile(registered, live, choice, hostPrefix, count);
      (k in Pinned(registered, choice) && table[k] == registered[k]) ||
      (k in SlotKeys(hostPrefix, count) &&
        exists j :: 0 <= j < |live| && choice[j].None? && table[k] == Inherit(registered, k, NewRecord(live[j]))) ||
      (k in SlotKeys(hostPrefix, count) && table[k] == EmptyRecord(registered, k))
  {
    var p0 := Pinned(registered, choice);
    var ns := Newcomers(live, choice);
    var p := Place(p0, registered, ns, hostPrefix, count);
    var table := Filled(p, registered, hostPrefix, count);
    assert table == Reconcile(registered, live, choice, hostPrefix, count);
    assert k in p || k in SlotKeys(hostPrefix, count);
    assert table[k] == if k in p then p[k] else EmptyRecord(registered, k);
    PlaceExtends(p0, registered, ns, hostPrefix, count);
    if k in p0 {
      assert p[k] == p0[k] == registered[k];
    } else if k in p {
      PlacedRecord(p0, registered, live, choice, hostPrefix, count, k);
    }
  }

  /** A key the placement adds holds a newcomer's record. */
  lemma PlacedRecord(actual: map<string, InstanceData>, registered: map<string, InstanceData>,
                     live: seq<Ec2Instance>, choice: seq<Option<string>>, hostPrefix: string, count: int, k: string)
    requires |choice| == |live|
    requires k in Place(actual, registered, Newcomers(live, choice), hostPrefix, count) && k !in actual
    ensures k in SlotKeys(hostPrefix, count)
    ensures exists j :: (0 <= j < |live| && choice[j].None? &&
      Place(actual, registered, Newcomers(live, choice), hostPrefix, count)[k] == Inherit(registered, k, NewRecord(live[j])))
  {
    PlaceExtends(actual, registered, Newcomers(live, choice), hostPrefix, count);
    var t := PlacedFrom(actual, registered, Newcomers(live, choice), hostPrefix, count, k);
    var j := NewcomerFrom(live, choice, t);
  }

  /** The newcomer a placed key came from. */
  lemma PlacedFrom(actual: map<string, InstanceData>, registered: map<string, InstanceData>,
                   ns: seq<InstanceData>, hostPrefix: string, count: int, k: string) returns (t: nat)
    requires k in Place(actual, registered, ns, hostPrefix, count) && k !in actual
    ensures t < |ns| && Place(actual, registered, ns, hostPrefix, count)[k] == Inherit(registered, k, ns[t])
  {
    PlaceOrigin(actual, registered, ns, hostPrefix, count);
    t :| 0 <= t < |ns| && Place(actual, registered, ns, hostPrefix, count)[k] == Inherit(registered, k, ns[t]);
  }


  /** With no slot taken yet, newcomers fill slots 1, 2, ... in order;
      those beyond the last slot are dropped. */
  lemma {:induction false} PlaceFromEmpty(registered: map<string, InstanceData>, newInstances: seq<InstanceData>,
                                          hostPrefix: string, count: int)
    ensures var p := Place(map[], registered, newInstances, hostPrefix, count);
      p.Keys == SlotKeys(hostPrefix, if |newInstances| < count then |newInstances| else count) &&
      forall i: nat :: 1 <= i <= count && i <= |newInstances| ==>
        p[SlotKey(hostPrefix, i)] == Inherit(registered, SlotKey(hostPrefix, i), newInstances[i - 1])
  {
    if newInstances != [] {
      var n := |newInstances| - 1;
      var init := newInstances[..n];
      PlaceFromEmpty(registered, init, hostPrefix, count);
      var before := Place(map[], registered, init, hostPrefix, count);
      assert newInstances == init + [newInstances[n]];
      if n < count {
        PlaceFromEmptyGrow(registered, init, newInstances[n], before, hostPrefix, count);
      } else {
        PlaceFromEmptyFull(registered, init, newInstances[n], before, hostPrefix, count);
      }
    }
  }

  /** The shape PlaceFromEmpty proves: slots 1..min(|ns|, count) taken,
      slot i by newcomer i - 1. */
  ghost predicate FromEmpty(p: map<string, InstanceData>, registered: map<string, InstanceData>,
                            ns: seq<InstanceData>, hostPrefix: string, count: int)
  {
    && p.Keys == SlotKeys(hostPrefix, if |ns| < count then |ns| else count)
    && forall i: nat :: 1 <= i <= count && i <= |ns| ==>
         p[SlotKey(hostPrefix, i)] == Inherit(registered, SlotKey(hostPrefix, i), ns[i - 1])
  }

  /** Slot i is among slots 1..m when 1 <= i <= m. */
  lemma SlotKeyIn(hostPrefix: string, i: nat, m: int)
    requires 1 <= i <= m
    ensures SlotKey(hostPrefix, i) in SlotKeys(hostPrefix, m)
  {
  }

  /** Slot m + 1 is not among slots 1..m. */
  lemma SlotKeyNext(hostPrefix: string, m: nat)
    ensures SlotKey(hostPrefix, m + 1) !in SlotKeys(hostPrefix, m)
  {
    forall i: nat | 1 <= i <= m
      ensures SlotKey(hostPrefix, i) != SlotKey(hostPrefix, m + 1)
    {
      if SlotKey(hostPrefix, i) == SlotKey(hostPrefix, m + 1) {
        SlotKeyInjective(hostPrefix, i, m + 1);
      }
    }
  }

  /** When exactly slots 1..m are taken, the first free slot is m + 1, or
      none when m reaches the slot count. */
  lemma FirstFreeOfPrefix(actual: map<string, InstanceData>, hostPrefix: string, count: int, m: nat)
    requires actual.Keys == SlotKeys(hostPrefix, m)
    ensures m < count ==> FirstFreeFrom(actual, hostPrefix, count, 1) == Some(m + 1)
    ensures m >= count ==> FirstFreeFrom(actual, hostPrefix, count, 1).None?
  {
    var r := FirstFreeFrom(actual, hostPrefix, count, 1);
    if (r.Some? && r.value > m + 1) || (r.None? && m < count) {
      assert SlotKey(hostPrefix, m + 1) in actual;
      SlotKeyNext(hostPrefix, m);
    }
  }

  /** A newcomer arriving while a slot is left takes the next slot. */
  lemma PlaceFromEmptyGrow(registered: map<string, InstanceData>, init: seq<InstanceData>, x: InstanceData,
                           before: map<string, InstanceData>, hostPrefix: string, count: int)
    requires |init| < count && FromEmpty(before, registered, init, hostPrefix, count)
    ensures FromEmpty(PlaceOne(before, registered, x, hostPrefix, count), registered, init + [x], hostPrefix, count)
  {
    var n := |init|;
    var ns := init + [x];
    var p := PlaceOne(before, registered, x, hostPrefix, count);
    FirstFreeOfPrefix(before, hostPrefix, count, n);
    var key := SlotKey(hostPrefix, n + 1);
    assert p.Keys == before.Keys + {key} && p[key] == Inherit(registered, key, x);
    SlotKeysStep(hostPrefix, n);
    forall i: nat | 1 <= i <= count && i <= |ns|
      ensures p[SlotKey(hostPrefix, i)] == Inherit(registered, SlotKey(hostPrefix, i), ns[i - 1])
    {
      if i <= n {
        SlotKeyIn(hostPrefix, i, n);
        assert ns[i - 1] == init[i - 1];
      } else {
        assert i == n + 1;
      }
    }
  }

  /** A newcomer arriving when every slot is taken is dropped. */
  lemma PlaceFromEmptyFull(registered: map<string, InstanceData>, init: seq<InstanceData>, x: InstanceData,
                           before: map<string, InstanceData>, hostPrefix: string, count: int)
    requires |init| >= count && FromEmpty(before, registered, init, hostPrefix, count)
    ensures FromEmpty(PlaceOne(before, registered, x, hostPrefix, count), registered, init + [x], hostPrefix, count)
  {
    FirstFreeOfPrefix(before, hostPrefix, count, if count < 0 then 0 else count);
    assert forall t :: 0 <= t < |init| ==> (init + [x])[t] == init[t];
  }

  /** With no newcomer recorded, every live instance is a newcomer. */
  lemma {:induction false} NewcomersAllNew(live: seq<Ec2Instance>, choice: seq<Option<string>>)
    requires |choice| == |live| && forall j :: 0 <= j < |choice| ==> choice[j].None?
    ensures |Newcomers(live, choice)| == |live|
    ensures forall t :: 0 <= t < |live| ==> Newcomers(live, choice)[t] == NewRecord(live[t])
  {
    if live != [] {
      NewcomersAllNew(live[..|live| - 1], choice[..|live| - 1]);
    }
  }

  /** A refresh of a group with no records: the live instances take slots
      1, 2, ... in inventory order with the default plugins, the slots left
      over get empty records, and instances beyond the last slot are
      dropped. */
  lemma ReconcileFromEmpty(live: seq<Ec2Instance>, choice: seq<Option<string>>, hostPrefix: string, count: int)
    requires ValidChoice(map[], live, choice)
    ensures var table := Reconcile(map[], live, choice, hostPrefix, count);
      table.Keys == SlotKeys(hostPrefix, count) &&
      forall i: nat :: 1 <= i <= count ==>
        table[SlotKey(hostPrefix, i)] ==
          if i <= |live| then NewRecord(live[i - 1]) else InstanceData("", "", DefaultMetricPlugins)
  {
    forall j | 0 <= j < |choice|
      ensures choice[j].None?
    {
      assert ChoiceFor(map[], live[j], choice[j]);
    }
    assert Pinned(map[], choice) == map[];
    NewcomersAllNew(live, choice);
    var ns := Newcomers(live, choice);
    PlaceFromEmpty(map[], ns, hostPrefix, count);
    var p := Place(map[], map[], ns, hostPrefix, count);
    var bound := if |ns| < count then |ns| else count;
    FilledFromSlots(p, hostPrefix, bound, count);
    var table := Filled(p, map[], hostPrefix, count);
    assert table == Reconcile(map[], live, choice, hostPrefix, count);
    forall i: nat | 1 <= i <= count
      ensures table[SlotKey(hostPrefix, i)] ==
        if i <= |live| then NewRecord(live[i - 1]) else InstanceData("", "", DefaultMetricPlugins)
    {
      if i <= |live| {
        assert p[SlotKey(hostPrefix, i)] == Inherit(map[], SlotKey(hostPrefix, i), ns[i - 1]);
      }
    }
  }

  /** Filling a table that holds slots 1..bound. */
  lemma FilledFromSlots(p: map<string, InstanceData>, hostPrefix: string, bound: int, count: int)
    requires bound <= count
    requires p.Keys == SlotKeys(hostPrefix, bound)
    ensures var table := Filled(p, map[], hostPrefix, count);
      table.Keys == SlotKeys(hostPrefix, count) &&
      (forall i: nat :: 1 <= i <= bound ==> SlotKey(hostPrefix, i) in p && table[SlotKey(hostPrefix, i)] == p[SlotKey(hostPrefix, i)]) &&
      (forall i: nat :: 1 <= i && bound < i <= count ==> table[SlotKey(hostPrefix, i)] == InstanceData("", "", DefaultMetricPlugins))
  {
    var table := Filled(p, map[], hostPrefix, count);
    forall k | k in SlotKeys(hostPrefix, bound)
      ensures k in SlotKeys(hostPrefix, count)
    {
      var i: nat :| 1 <= i <= bound && k == SlotKey(hostPrefix, i);
      assert SlotKey(hostPrefix, i) in SlotKeys(hostPrefix, count);
    }
    forall i: nat | 1 <= i <= bound
      ensures SlotKey(hostPrefix, i) in p
    {
      assert SlotKey(hostPrefix, i) in SlotKeys(hostPrefix, bound);
    }
    forall i: nat | 1 <= i && bound < i <= count
      ensures table[SlotKey(hostPrefix, i)] == InstanceData("", "", DefaultMetricPlugins)
    {
      assert SlotKey(hostPrefix, i) in SlotKeys(hostPrefix, count);
      assert SlotKey(hostPrefix, i) !in p by {
        forall m: nat | 1 <= m <= bound
          ensures SlotKey(hostPrefix, i) != SlotKey(hostPrefix, m)
        {
          if SlotKey(hostPrefix, i) == SlotKey(hostPrefix, m) {
            SlotKeyInjective(hostPrefix, i, m);
          }
        }
      }
    }
  }

  // ---------------------------------------------------------------------
  // The pieces of Reconcile

  /** The live instance a newcomer came from. */
  lemma {:induction false} NewcomerFrom(live: seq<Ec2Instance>, choice: seq<Option<string>>, t: nat) returns (j: nat)
    requires |choice| == |live| && t < |Newcomers(live, choice)|
    ensures j < |live| && choice[j].None? && Newcomers(live, choice)[t] == NewRecord(live[j])
    decreases |live|
  {
    var n := |live| - 1;
    var init := Newcomers(live[..n], choice[..n]);
    assert Newcomers(live, choice) == init + (if choice[n].None? then [NewRecord(live[n])] else []);
    if t < |init| {
      j := NewcomerFrom(live[..n], choice[..n], t);
      assert live[..n][j] == live[j] && choice[..n][j] == choice[j];
    } else {
      j := n;
    }
  }

  /** Where a live instance without a record sits among the newcomers. */
  lemma {:induction false} NewcomerIndexOf(live: seq<Ec2Instance>, choice: seq<Option<string>>, j: nat) returns (t: nat)
    requires |choice| == |live| && j < |live| && choice[j].None?
    ensures t < |Newcomers(live, choice)| && Newcomers(live, choice)[t] == NewRecord(live[j])
    decreases |live|
  {
    var n := |live| - 1;
    var init := Newcomers(live[..n], choice[..n]);
    assert Newcomers(live, choice) == init + (if choice[n].None? then [NewRecord(live[n])] else []);
    if j == n {
      t := |init|;
    } else {
      assert live[..n][j] == live[j] && choice[..n][j] == choice[j];
      t := NewcomerIndexOf(live[..n], choice[..n], j);
    }
  }

  /** Distinct live IDs give distinct newcomer IDs. */
  lemma {:induction false} NewcomersDistinct(live: seq<Ec2Instance>, choice: seq<Option<string>>)
    requires |choice| == |live| && LiveIdsDistinct(live)
    ensures DistinctIds(Newcomers(live, choice))
  {
    if live != [] {
      var n := |live| - 1;
      assert LiveIdsDistinct(live[..n]);
      NewcomersDistinct(live[..n], choice[..n]);
      var init := Newcomers(live[..n], choice[..n]);
      var ns := Newcomers(live, choice);
      assert ns == init + (if choice[n].None? then [NewRecord(live[n])] else []);
      forall t1, t2 | 0 <= t1 < t2 < |ns|
        ensures ns[t1].instanceId != ns[t2].instanceId
      {
        if t2 == |init| {
          var j := NewcomerFrom(live[..n], choice[..n], t1);
          assert ns[t1].instanceId == live[j].instanceId;
        } else {
          assert ns[t1] == init[t1] && ns[t2] == init[t2];
        }
      }
    }
  }

  lemma PinnedProps(registered: map<string, InstanceData>, live: seq<Ec2Instance>, choice: seq<Option<string>>)
    requires ValidChoice(registered, live, choice) && LiveIdsDistinct(live)
    ensures var p := Pinned(registered, choice);
      NoEmptyIds(p) && IdsUnique(p) &&
      (forall k :: k in p ==> exists j :: 0 <= j < |live| && choice[j] == Some(k) && p[k].instanceId == live[j].instanceId) &&
      (forall j :: 0 <= j < |live| && choice[j].None? ==> !HoldsId(p, live[j].instanceId))
  {
    var p := Pinned(registered, choice);
    forall k | k in p
      ensures exists j :: 0 <= j < |live| && choice[j] == Some(k) && p[k].instanceId == live[j].instanceId
    {
      var j :| 0 <= j < |choice| && choice[j] == Some(k);
      assert ChoiceFor(registered, live[j], choice[j]);
    }
    forall k1, k2 | k1 in p && k2 in p && p[k1].instanceId != "" && p[k1].instanceId == p[k2].instanceId
      ensures k1 == k2
    {
      var j1 :| 0 <= j1 < |live| && choice[j1] == Some(k1) && p[k1].instanceId == live[j1].instanceId;
      var j2 :| 0 <= j2 < |live| && choice[j2] == Some(k2) && p[k2].instanceId == live[j2].instanceId;
      assert j1 == j2;
    }
    forall j | 0 <= j < |live| && choice[j].None?
      ensures !HoldsId(p, live[j].instanceId)
    {
      forall k | k in p
        ensures p[k].instanceId != live[j].instanceId
      {
        var j' :| 0 <= j' < |live| && choice[j'] == Some(k) && p[k].instanceId == live[j'].instanceId;
        assert j' != j;
      }
    }
  }

  /** The first free slot exists exactly when some slot is not taken. */
  lemma FirstFreeWhenTaken(actual: map<string, InstanceData>, hostPrefix: string, count: int)
    requires SlotsTaken(actual, hostPrefix, count)
    ensures FirstFreeFrom(actual, hostPrefix, count, 1).None?
  {
  }

  /** With every slot taken, newcomers change nothing. */
  lemma {:induction false} PlaceWhenFull(actual: map<string, InstanceData>, registered: map<string, InstanceData>,
                                         newInstances: seq<InstanceData>, hostPrefix: string, count: int)
    requires SlotsTaken(actual, hostPrefix, count)
    ensures Place(actual, registered, newInstances, hostPrefix, count) == actual
  {
    if newInstances != [] {
      PlaceWhenFull(actual, registered, newInstances[..|newInstances| - 1], hostPrefix, count);
      FirstFreeWhenTaken(actual, hostPrefix, count);
    }
  }

  /** One placement keeps the invariants of the growing table. */
  lemma PlaceOneInvariants(acc: map<string, InstanceData>, before: map<string, InstanceData>,
                           registered: map<string, InstanceData>, ns: seq<InstanceData>,
                           hostPrefix: string, count: int)
    requires ns != []
    requires NoEmptyIds(before) && IdsUnique(before)
    requires forall k :: k in acc ==> k in before && before[k] == acc[k]
    requires forall k :: k in before && k !in acc ==>
      exists t :: 0 <= t < |ns| - 1 && before[k].instanceId == ns[t].instanceId && before[k].ip == ns[t].ip
    requires forall t :: 0 <= t < |ns| ==> ns[t].instanceId != "" && !HoldsId(acc, ns[t].instanceId)
    requires DistinctIds(ns)
    requires forall t :: 0 <= t < |ns| - 1 ==> HoldsId(before, ns[t].instanceId) || SlotsTaken(before, hostPrefix, count)
    ensures var p := PlaceOne(before, registered, ns[|ns| - 1], hostPrefix, count);
      NoEmptyIds(p) && IdsUnique(p) &&
      (forall k :: k in before ==> k in p && p[k] == before[k]) &&
      (forall k :: k in p ==> k in before || k in SlotKeys(hostPrefix, count)) &&
      (forall k :: k in p && k !in acc ==>
        exists t :: 0 <= t < |ns| && p[k].instanceId == ns[t].instanceId && p[k].ip == ns[t].ip) &&
      (forall t :: 0 <= t < |ns| ==> HoldsId(p, ns[t].instanceId) || SlotsTaken(p, hostPrefix, count))
  {
    var n := |ns| - 1;
    var p := PlaceOne(before, registered, ns[n], hostPrefix, count);
    var free := FirstFreeFrom(before, hostPrefix, count, 1);
    PlaceOneOrigins(acc, before, registered, ns, hostPrefix, count);
    if free.Some? {
      assert SlotKey(hostPrefix, free.value) in SlotKeys(hostPrefix, count);
      PlaceOneNewId(acc, before, ns);
      PlaceOneUnique(before, registered, ns[n], hostPrefix, count);
      PlaceOneCovers(before, registered, ns, hostPrefix, count);
    }
  }

  /** Every record outside `acc` still comes from a newcomer. */
  lemma PlaceOneOrigins(acc: map<string, InstanceData>, before: map<string, InstanceData>,
                        registered: map<string, InstanceData>, ns: seq<InstanceData>, hostPrefix: string, count: int)
    requires ns != []
    requires forall k :: k in before && k !in acc ==>
      exists t :: 0 <= t < |ns| - 1 && before[k].instanceId == ns[t].instanceId && before[k].ip == ns[t].ip
    ensures forall k :: k in PlaceOne(before, registered, ns[|ns| - 1], hostPrefix, count) && k !in acc ==>
      exists t :: 0 <= t < |ns| &&
        PlaceOne(before, registered, ns[|ns| - 1], hostPrefix, count)[k].instanceId == ns[t].instanceId &&
        PlaceOne(before, registered, ns[|ns| - 1], hostPrefix, count)[k].ip == ns[t].ip
  {
    var n := |ns| - 1;
    var p := PlaceOne(before, registered, ns[n], hostPrefix, count);
    forall k | k in p && k !in acc
      ensures exists t :: 0 <= t < |ns| && p[k].instanceId == ns[t].instanceId && p[k].ip == ns[t].ip
    {
      if k in before {
        var t :| 0 <= t < n && before[k].instanceId == ns[t].instanceId && before[k].ip == ns[t].ip;
        assert p[k] == before[k];
      } else {
        assert p[k].instanceId == ns[n].instanceId && p[k].ip == ns[n].ip;
      }
    }
  }

  /** The newcomer being placed is held by no record yet. */
  lemma PlaceOneNewId(acc: map<string, InstanceData>, before: map<string, InstanceData>, ns: seq<InstanceData>)
    requires ns != []
    requires forall k :: k in acc ==> k in before && before[k] == acc[k]
    requires forall k :: k in before && k !in acc ==>
      exists t :: 0 <= t < |ns| - 1 && before[k].instanceId == ns[t].instanceId && before[k].ip == ns[t].ip
    requires !HoldsId(acc, ns[|ns| - 1].instanceId)
    requires DistinctIds(ns)
    ensures !HoldsId(before, ns[|ns| - 1].instanceId)
  {
    var n := |ns| - 1;
    forall k | k in before
      ensures before[k].instanceId != ns[n].instanceId
    {
      if k !in acc {
        var t :| 0 <= t < n && before[k].instanceId == ns[t].instanceId && before[k].ip == ns[t].ip;
      }
    }
  }

  /** Placing an instance no record holds keeps IDs unique. */
  lemma PlaceOneUnique(before: map<string, InstanceData>, registered: map<string, InstanceData>,
                       instance: InstanceData, hostPrefix: string, count: int)
    requires IdsUnique(before) && !HoldsId(before, instance.instanceId)
    ensures IdsUnique(PlaceOne(before, registered, instance, hostPrefix, count))
  {
    var p := PlaceOne(before, registered, instance, hostPrefix, count);
    var free := FirstFreeFrom(before, hostPrefix, count, 1);
    if free.Some? {
      var key := SlotKey(hostPrefix, free.value);
      forall k1, k2 | k1 in p && k2 in p && p[k1].instanceId != "" && p[k1].instanceId == p[k2].instanceId
        ensures k1 == k2
      {
        if k1 != key && k2 != key {
          assert before[k1].instanceId == before[k2].instanceId;
        }
      }
    }
  }

  /** After a placement every newcomer so far is held, or the slots are taken. */
  lemma PlaceOneCovers(before: map<string, InstanceData>, registered: map<string, InstanceData>, ns: seq<InstanceData>,
                       hostPrefix: string, count: int)
    requires ns != []
    requires forall t :: 0 <= t < |ns| - 1 ==> HoldsId(before, ns[t].instanceId) || SlotsTaken(before, hostPrefix, count)
    ensures forall t :: 0 <= t < |ns| ==>
      HoldsId(PlaceOne(before, registered, ns[|ns| - 1], hostPrefix, count), ns[t].instanceId) ||
      SlotsTaken(PlaceOne(before, registered, ns[|ns| - 1], hostPrefix, count), hostPrefix, count)
  {
    var n := |ns| - 1;
    var p := PlaceOne(before, registered, ns[n], hostPrefix, count);
    var free := FirstFreeFrom(before, hostPrefix, count, 1);
    forall t | 0 <= t < |ns|
      ensures HoldsId(p, ns[t].instanceId) || SlotsTaken(p, hostPrefix, count)
    {
      if free.Some? {
        var key := SlotKey(hostPrefix, free.value);
        if t == n {
          assert p[key].instanceId == ns[n].instanceId;
        } else if HoldsId(before, ns[t].instanceId) {
          var k :| k in before && before[k].instanceId == ns[t].instanceId;
          assert p[k] == before[k];
        }
      }
    }
  }

  /** What placing the newcomers keeps true. */
  lemma {:induction false} PlaceInvariants(acc: map<string, InstanceData>, registered: map<string, InstanceData>,
                                           ns: seq<InstanceData>, hostPrefix: string, count: int)
    requires NoEmptyIds(acc) && IdsUnique(acc)
    requires forall t :: 0 <= t < |ns| ==> ns[t].instanceId != "" && !HoldsId(acc, ns[t].instanceId)
    requires DistinctIds(ns)
    ensures var p := Place(acc, registered, ns, hostPrefix, count);
      NoEmptyIds(p) && IdsUnique(p) &&
      (forall k :: k in acc ==> k in p && p[k] == acc[k]) &&
      (forall k :: k in p ==> k in acc || k in SlotKeys(hostPrefix, count)) &&
      (forall k :: k in p && k !in acc ==>
        exists t :: 0 <= t < |ns| && p[k].instanceId == ns[t].instanceId && p[k].ip == ns[t].ip) &&
      (forall t :: 0 <= t < |ns| ==> HoldsId(p, ns[t].instanceId) || SlotsTaken(p, hostPrefix, count))
  {
    if ns != [] {
      var n := |ns| - 1;
      var init := ns[..n];
      PlaceInvariants(acc, registered, init, hostPrefix, count);
      var before := Place(acc, registered, init, hostPrefix, count);
      forall k | k in before && k !in acc
        ensures exists t :: 0 <= t < n && before[k].instanceId == ns[t].instanceId && before[k].ip == ns[t].ip
      {
        var t :| 0 <= t < |init| && before[k].instanceId == init[t].instanceId && before[k].ip == init[t].ip;
        assert init[t] == ns[t];
      }
      forall t | 0 <= t < n
        ensures HoldsId(before, ns[t].instanceId) || SlotsTaken(before, hostPrefix, count)
      {
        assert init[t] == ns[t];
      }
      PlaceOneInvariants(acc, before, registered, ns, hostPrefix, count);
    }
  }

  // ---------------------------------------------------------------------
  // A refresh writes a settled table, and a settled table is a fixpoint

  /** The facts about the placed table that the filled table inherits. */
  ghost predicate PlacedShape(p: map<string, InstanceData>, registered: map<string, InstanceData>,
                              live: seq<Ec2Instance>, choice: seq<Option<string>>, hostPrefix: string, count: int)
    requires |choice| == |live|
  {
    NoEmptyIds(p) && IdsUnique(p) && IdsLive(p, live) &&
    (forall j :: 0 <= j < |live| && choice[j].Some? ==>
      choice[j].value in p && p[choice[j].value].instanceId == live[j].instanceId) &&
    (forall j :: 0 <= j < |live| && choice[j].None? ==>
      HoldsId(p, live[j].instanceId) || SlotsTaken(p, hostPrefix, count))
  }

  lemma PlacedShapeOfReconcile(registered: map<string, InstanceData>, live: seq<Ec2Instance>,
                               choice: seq<Option<string>>, hostPrefix: string, count: int)
    requires ValidChoice(registered, live, choice) && LiveIdsDistinct(live)
    ensures PlacedShape(Place(Pinned(registered, choice), registered, Newcomers(live, choice), hostPrefix, count),
                        registered, live, choice, hostPrefix, count)
  {
    PlacedInvariantsOfReconcile(registered, live, choice, hostPrefix, count);
    PlacedIdsLive(registered, live, choice, hostPrefix, count);
    PlacedKeepsPinned(registered, live, choice, hostPrefix, count);
  }

  /** The record a live instance is pinned to. */
  lemma PinnedSource(registered: map<string, InstanceData>, live: seq<Ec2Instance>,
                     choice: seq<Option<string>>, k: string) returns (j: nat)
    requires ValidChoice(registered, live, choice) && k in Pinned(registered, choice)
    ensures j < |live| && choice[j] == Some(k) && registered[k].instanceId == live[j].instanceId
  {
    j :| 0 <= j < |choice| && choice[j] == Some(k);
    assert ChoiceFor(registered, live[j], choice[j]);
  }


  /** Every newcomer has an ID and no pinned record holds it. */
  lemma NewcomersFresh(registered: map<string, InstanceData>, live: seq<Ec2Instance>, choice: seq<Option<string>>)
    requires ValidChoice(registered, live, choice) && LiveIdsDistinct(live)
    ensures forall t :: 0 <= t < |Newcomers(live, choice)| ==>
      Newcomers(live, choice)[t].instanceId != "" && !HoldsId(Pinned(registered, choice), Newcomers(live, choice)[t].instanceId)
  {
    PinnedProps(registered, live, choice);
    forall t | 0 <= t < |Newcomers(live, choice)|
      ensures Newcomers(live, choice)[t].instanceId != "" &&
        !HoldsId(Pinned(registered, choice), Newcomers(live, choice)[t].instanceId)
    {
      var j := NewcomerFrom(live, choice, t);
    }
  }

  /** The placed table keeps IDs unique and every unrecorded live instance
      placed unless the slots are taken. */
  lemma PlacedInvariantsOfReconcile(registered: map<string, InstanceData>, live: seq<Ec2Instance>,
                                    choice: seq<Option<string>>, hostPrefix: string, count: int)
    requires ValidChoice(registered, live, choice) && LiveIdsDistinct(live)
    ensures var p := Place(Pinned(registered, choice), registered, Newcomers(live, choice), hostPrefix, count);
      NoEmptyIds(p) && IdsUnique(p) &&
      forall j :: 0 <= j < |live| && choice[j].None? ==> HoldsId(p, live[j].instanceId) || SlotsTaken(p, hostPrefix, count)
  {
    PinnedProps(registered, live, choice);
    NewcomersDistinct(live, choice);
    NewcomersFresh(registered, live, choice);
    PlaceInvariants(Pinned(registered, choice), registered, Newcomers(live, choice), hostPrefix, count);
    forall j | 0 <= j < |live| && choice[j].None?
      ensures var p := Place(Pinned(registered, choice), registered, Newcomers(live, choice), hostPrefix, count);
        HoldsId(p, live[j].instanceId) || SlotsTaken(p, hostPrefix, count)
    {
      var t := NewcomerIndexOf(live, choice, j);
    }
  }

  /** Every ID in the placed table is live. */
  lemma PlacedIdsLive(registered: map<string, InstanceData>, live: seq<Ec2Instance>,
                      choice: seq<Option<string>>, hostPrefix: string, count: int)
    requires ValidChoice(registered, live, choice)
    ensures IdsLive(Place(Pinned(registered, choice), registered, Newcomers(live, choice), hostPrefix, count), live)
  {
    var p0 := Pinned(registered, choice);
    var p := Place(p0, registered, Newcomers(live, choice), hostPrefix, count);
    PlaceExtends(p0, registered, Newcomers(live, choice), hostPrefix, count);
    forall k | k in p && p[k].instanceId != ""
      ensures exists j :: 0 <= j < |live| && live[j].instanceId == p[k].instanceId
    {
      if k in p0 {
        var j := PinnedSource(registered, live, choice, k);
        assert live[j].instanceId == p[k].instanceId;
      } else {
        var t := PlacedFrom(p0, registered, Newcomers(live, choice), hostPrefix, count, k);
        var j := NewcomerFrom(live, choice, t);
        assert live[j].instanceId == p[k].instanceId;
      }
    }
  }

  /** Every pinned live instance keeps its record in the placed table. */
  lemma PlacedKeepsPinned(registered: map<string, InstanceData>, live: seq<Ec2Instance>,
                          choice: seq<Option<string>>, hostPrefix: string, count: int)
    requires ValidChoice(registered, live, choice)
    ensures var p := Place(Pinned(registered, choice), registered, Newcomers(live, choice), hostPrefix, count);
      forall j :: 0 <= j < |live| && choice[j].Some? ==>
        choice[j].value in p && p[choice[j].value].instanceId == live[j].instanceId
  {
    PlaceExtends(Pinned(registered, choice), registered, Newcomers(live, choice), hostPrefix, count);
    forall j | 0 <= j < |live| && choice[j].Some?
      ensures choice[j].value in Pinned(registered, choice)
    {
      assert ChoiceFor(registered, live[j], choice[j]);
    }
  }

  lemma SettledOfFilled(p: map<string, InstanceData>, registered: map<string, InstanceData>,
                        live: seq<Ec2Instance>, choice: seq<Option<string>>, hostPrefix: string, count: int)
    requires |choice| == |live| && PlacedShape(p, registered, live, choice, hostPrefix, count)
    ensures Settled(Filled(p, registered, hostPrefix, count), live, hostPrefix, count)
  {
    FilledKeeps(p, registered, hostPrefix, count);
    FilledIds(p, registered, live, hostPrefix, count);
    FilledMissingOnlyWhenFull(p, registered, live, choice, hostPrefix, count);
  }

  /** Filling keeps every record and adds only empty ones at the slots. */
  lemma FilledKeeps(p: map<string, InstanceData>, registered: map<string, InstanceData>, hostPrefix: string, count: int)
    ensures forall k :: k in p ==> k in Filled(p, registered, hostPrefix, count) && Filled(p, registered, hostPrefix, count)[k] == p[k]
    ensures forall k :: k in Filled(p, registered, hostPrefix, count) && k !in p ==>
      k in SlotKeys(hostPrefix, count) && Filled(p, registered, hostPrefix, count)[k] == EmptyRecord(registered, k)
    ensures SlotsTaken(Filled(p, registered, hostPrefix, count), hostPrefix, count)
  {
    forall i: nat | 1 <= i <= count
      ensures SlotKey(hostPrefix, i) in Filled(p, registered, hostPrefix, count)
    {
      assert SlotKey(hostPrefix, i) in SlotKeys(hostPrefix, count);
    }
  }

  /** The filled table keeps the placed table's ID facts. */
  lemma FilledIds(p: map<string, InstanceData>, registered: map<string, InstanceData>,
                  live: seq<Ec2Instance>, hostPrefix: string, count: int)
    requires NoEmptyIds(p) && IdsUnique(p) && IdsLive(p, live)
    ensures EmptiesAtSlots(Filled(p, registered, hostPrefix, count), hostPrefix, count)
    ensures IdsLive(Filled(p, registered, hostPrefix, count), live)
    ensures IdsUnique(Filled(p, registered, hostPrefix, count))
  {
    FilledKeeps(p, registered, hostPrefix, count);
    var r := Filled(p, registered, hostPrefix, count);
    assert forall k :: k in r && r[k].instanceId != "" ==> k in p && r[k] == p[k];
  }

  /** A live instance missing from the filled table means every slot holds one. */
  lemma FilledMissingOnlyWhenFull(p: map<string, InstanceData>, registered: map<string, InstanceData>,
                                  live: seq<Ec2Instance>, choice: seq<Option<string>>, hostPrefix: string, count: int)
    requires |choice| == |live| && PlacedShape(p, registered, live, choice, hostPrefix, count)
    ensures MissingOnlyWhenFull(Filled(p, registered, hostPrefix, count), live, hostPrefix, count)
  {
    FilledKeeps(p, registered, hostPrefix, count);
    var r := Filled(p, registered, hostPrefix, count);
    if exists j :: 0 <= j < |live| && !HoldsId(r, live[j].instanceId) {
      var j :| 0 <= j < |live| && !HoldsId(r, live[j].instanceId);
      assert !HoldsId(p, live[j].instanceId) by {
        forall k | k in p
          ensures p[k].instanceId != live[j].instanceId
        {
          assert r[k] == p[k];
        }
      }
      assert choice[j].None?;
      assert SlotsTaken(p, hostPrefix, count);
      forall i: nat | 1 <= i <= count
        ensures SlotKey(hostPrefix, i) in r && r[SlotKey(hostPrefix, i)].instanceId != ""
      {
        assert SlotKey(hostPrefix, i) in p;
      }
    }
  }

  /** A refresh writes a settled table. */
  lemma ReconcileSettled(registered: map<string, InstanceData>, live: seq<Ec2Instance>,
                         choice: seq<Option<string>>, hostPrefix: string, count: int)
    requires ValidChoice(registered, live, choice) && LiveIdsDistinct(live)
    ensures Settled(Reconcile(registered, live, choice, hostPrefix, count), live, hostPrefix, count)
  {
    PlacedShapeOfReconcile(registered, live, choice, hostPrefix, count);
    var p := Place(Pinned(registered, choice), registered, Newcomers(live, choice), hostPrefix, count);
    SettledOfFilled(p, registered, live, choice, hostPrefix, count);
  }

  /** The records that hold an instance. */
  ghost function Busy(table: map<string, InstanceData>): map<string, InstanceData>
  {
    map k | k in table && table[k].instanceId != "" :: table[k]
  }

  /** Against a settled table, exactly the busy records are pinned. */
  lemma PinnedOfSettled(table: map<string, InstanceData>, live: seq<Ec2Instance>, choice: seq<Option<string>>,
                        hostPrefix: string, count: int)
    requires Settled(table, live, hostPrefix, count) && LiveIdsDistinct(live)
    requires ValidChoice(table, live, choice)
    ensures Pinned(table, choice) == Busy(table)
  {
    forall k | k in table && table[k].instanceId != ""
      ensures Some(k) in choice
    {
      var j := BusyChosen(table, live, choice, hostPrefix, count, k);
    }
    forall k | Some(k) in choice && k in table
      ensures table[k].instanceId != ""
    {
      var j := PinnedSource(table, live, choice, k);
    }
  }

  /** The live instance whose choice is a busy record of a settled table. */
  lemma BusyChosen(table: map<string, InstanceData>, live: seq<Ec2Instance>, choice: seq<Option<string>>,
                   hostPrefix: string, count: int, k: string) returns (j: nat)
    requires Settled(table, live, hostPrefix, count) && ValidChoice(table, live, choice)
    requires k in table && table[k].instanceId != ""
    ensures j < |live| && choice[j] == Some(k)
  {
    j :| 0 <= j < |live| && live[j].instanceId == table[k].instanceId;
    assert ChoiceFor(table, live[j], choice[j]);
  }

  /** Against a settled table no newcomer finds a free slot. */
  lemma PlaceOfSettled(table: map<string, InstanceData>, live: seq<Ec2Instance>, choice: seq<Option<string>>,
                       hostPrefix: string, count: int)
    requires Settled(table, live, hostPrefix, count) && ValidChoice(table, live, choice)
    ensures Place(Busy(table), table, Newcomers(live, choice), hostPrefix, count) == Busy(table)
  {
    var ns := Newcomers(live, choice);
    if ns != [] {
      var j := NewcomerFrom(live, choice, 0);
      assert ChoiceFor(table, live[j], choice[j]);
      assert !HoldsId(table, live[j].instanceId);
      assert SlotsTaken(Busy(table), hostPrefix, count);
      PlaceWhenFull(Busy(table), table, ns, hostPrefix, count);
    }
  }

  /** Filling the empty slots of a settled table's busy records gives the table. */
  lemma FilledOfSettled(table: map<string, InstanceData>, live: seq<Ec2Instance>, hostPrefix: string, count: int)
    requires Settled(table, live, hostPrefix, count)
    ensures Filled(Busy(table), table, hostPrefix, count) == table
  {
    FilledKeeps(Busy(table), table, hostPrefix, count);
    var r := Filled(Busy(table), table, hostPrefix, count);
    forall k | k in SlotKeys(hostPrefix, count)
      ensures k in table
    {
      var i: nat :| 1 <= i <= count && k == SlotKey(hostPrefix, i);
    }
    assert r.Keys == table.Keys;
    forall k | k in r
      ensures r[k] == table[k]
    {
      if k !in Busy(table) {
        assert r[k] == EmptyRecord(table, k);
      }
    }
  }

  /** A settled table is a fixpoint of the rebuild. */
  lemma ReconcileFixpoint(table: map<string, InstanceData>, live: seq<Ec2Instance>, choice: seq<Option<string>>,
                          hostPrefix: string, count: int)
    requires Settled(table, live, hostPrefix, count) && LiveIdsDistinct(live)
    requires ValidChoice(table, live, choice)
    ensures Reconcile(table, live, choice, hostPrefix, count) == table
  {
    PinnedOfSettled(table, live, choice, hostPrefix, count);
    PlaceOfSettled(table, live, choice, hostPrefix, count);
    FilledOfSettled(table, live, hostPrefix, count);
  }

  /** Refreshing twice against the same inventory writes the same table. */
  lemma ReconcileIdempotent(registered: map<string, InstanceData>, live: seq<Ec2Instance>,
                            choice1: seq<Option<string>>, choice2: seq<Option<string>>,
                            hostPrefix: string, count: int)
    requires LiveIdsDistinct(live) && ValidChoice(registered, live, choice1)
    requires ValidChoice(Reconcile(registered, live, choice1, hostPrefix, count), live, choice2)
    ensures var table := Reconcile(registered, live, choice1, hostPrefix, count);
      Reconcile(table, live, choice2, hostPrefix, count) == table
  {
    ReconcileSettled(registered, live, choice1, hostPrefix, count);
    ReconcileFixpoint(Reconcile(registered, live, choice1, hostPrefix, count), live, choice2, hostPrefix, count);
  }

  // ---------------------------------------------------------------------
  // The same, stated on the store

  /** After a refresh, the group's recorded slots are the rebuilt table. */
  lemma RegisteredAfterRefresh(store: seq<Entry>, after: seq<Entry>, live: seq<Ec2Instance>,
                               choice: seq<Option<string>>, hostPrefix: string, count: int)
    requires Sorted(store) && Sorted(after)
    requires ValidChoice(Registered(store, hostPrefix), live, choice)
    requires ToMap(after) == RefreshedStore(store, live, choice, hostPrefix, count)
    ensures Registered(after, hostPrefix) == Reconcile(Registered(store, hostPrefix), live, choice, hostPrefix, count)
  {
    RegisteredKeys(store, hostPrefix);
    ReconcilePrefixed(Registered(store, hostPrefix), live, choice, hostPrefix, count);
    RegisteredOfReplaced(store, after, hostPrefix,
                         Reconcile(Registered(store, hostPrefix), live, choice, hostPrefix, count));
  }

  /** The rebuilt table holds only keys with the group's prefix when the
      recorded slots do. */
  lemma ReconcilePrefixed(registered: map<string, InstanceData>, live: seq<Ec2Instance>,
                          choice: seq<Option<string>>, hostPrefix: string, count: int)
    requires ValidChoice(registered, live, choice)
    requires forall k :: k in registered ==> HasPrefix(k, SlotPrefix(hostPrefix))
    ensures forall k :: k in Reconcile(registered, live, choice, hostPrefix, count) ==> HasPrefix(k, SlotPrefix(hostPrefix))
  {
    ReconcileKeys(registered, live, choice, hostPrefix, count);
    forall k | k in SlotKeys(hostPrefix, count)
      ensures HasPrefix(k, SlotPrefix(hostPrefix))
    {
      var i: nat :| 1 <= i <= count && k == SlotKey(hostPrefix, i);
    }
  }

  /** Replacing the group's recorded slots by a table of slot keys makes
      that table the recorded slots. */
  lemma RegisteredOfReplaced(store: seq<Entry>, after: seq<Entry>, hostPrefix: string, table: map<string, InstanceData>)
    requires Sorted(store) && Sorted(after)
    requires forall k :: k in table ==> HasPrefix(k, SlotPrefix(hostPrefix))
    requires ToMap(after) == (ToMap(store) - Registered(store, hostPrefix).Keys) + Records(table)
    ensures Registered(after, hostPrefix) == table
  {
    RegisteredKeys(store, hostPrefix);
    RegisteredKeys(after, hostPrefix);
    var now := Registered(after, hostPrefix);
    assert now.Keys == table.Keys;
    forall k | k in now
      ensures now[k] == table[k]
    {
      assert ToMap(after)[k] == InstanceRecord(table[k]);
    }
  }

  /** Rewriting records a map already holds changes nothing. */
  lemma RewriteSame(m: map<string, StoredValue>, table: map<string, InstanceData>)
    requires forall k :: k in table ==> k in m && m[k] == InstanceRecord(table[k])
    ensures (m - table.Keys) + Records(table) == m
  {
  }

  /** Refreshing a store twice against the same inventory: the second
      refresh leaves every key as the first one wrote it. */
  lemma RefreshTwiceNoChange(store: seq<Entry>, after: seq<Entry>, live: seq<Ec2Instance>,
                             choice1: seq<Option<string>>, choice2: seq<Option<string>>,
                             hostPrefix: string, count: int)
    requires Sorted(store) && Sorted(after) && LiveIdsDistinct(live)
    requires ValidChoice(Registered(store, hostPrefix), live, choice1)
    requires ToMap(after) == RefreshedStore(store, live, choice1, hostPrefix, count)
    requires ValidChoice(Registered(after, hostPrefix), live, choice2)
    ensures RefreshedStore(after, live, choice2, hostPrefix, count) == ToMap(after)
  {
    var table := Reconcile(Registered(store, hostPrefix), live, choice1, hostPrefix, count);
    RegisteredAfterRefresh(store, after, live, choice1, hostPrefix, count);
    ReconcileIdempotent(Registered(store, hostPrefix), live, choice1, choice2, hostPrefix, count);
    assert Reconcile(Registered(after, hostPrefix), live, choice2, hostPrefix, count) == table;
    var m := ToMap(after);
    assert RefreshedStore(after, live, choice2, hostPrefix, count) == (m - table.Keys) + Records(table);
    assert m == (ToMap(store) - Registered(store, hostPrefix).Keys) + Records(table);
    RewriteSame(m, table);
  }
}
