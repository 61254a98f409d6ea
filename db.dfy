/** The agent's single leveldb store: one flat key space kept in byte-wise
    key order, shared by the slot table (`ag-` keys), the metric buffer
    (`m-` keys) and machine-state snapshots (`s-` keys).

    The store is a class whose state is the sorted sequence of its entries.
    A transaction is a copy of that sequence that an operation edits with
    `Put` and `Delete`; committing assigns the copy back, discarding drops
    it. Values are kept decoded; a gob decoding failure is a value of the
    wrong shape. */
module Db {
  import opened Wrappers
  import opened Text
  import opened HaLib

  /** db/db.go: default retention of metric batches and snapshots. */
  const MetricsMaxLifetimeSeconds: int := 7 * 86400
  const MachineStateMaxLifetimeSeconds: int := 3 * 86400

  /** leveldb's ErrNotFound message. */
  const ErrNotFound: string := "leveldb: not found"

  datatype StoredValue =
    | InstanceRecord(instance: InstanceData)
    | MetricsBatch(batch: seq<MetricsData>)
    | Blob(text: string)

  /** gob-decoding a slot record with the error ignored: anything that is
      not a slot record decodes to the zero InstanceData. */
  function DecodeInstance(v: StoredValue): (d: InstanceData)
    ensures v.InstanceRecord? ==> d == v.instance
    ensures !v.InstanceRecord? ==> d == InstanceData("", "", [])
  {
    if v.InstanceRecord? then v.instance else InstanceData("", "", [])
  }

  /** gob-decoding a metric batch; None is a decoding error. */
  function DecodeBatch(v: StoredValue): (r: Option<seq<MetricsData>>)
    ensures r.Some? <==> v.MetricsBatch?
    ensures r.Some? ==> r.value == v.batch
  {
    if v.MetricsBatch? then Some(v.batch) else None
  }

  datatype Entry = Entry(key: string, value: StoredValue)

  /** The errors a transaction's OpenTransaction, Write and Commit calls
      return; None is success. */
  datatype TxErrors = TxErrors(open: Option<string>, write: Option<string>, commit: Option<string>)

  /** Keys strictly increase in byte order (so they are also distinct). */
  ghost predicate Sorted(es: seq<Entry>)
  {
    forall i, j :: 0 <= i < j < |es| ==> Less(es[i].key, es[j].key)
  }

  /** Every key of `es` sorts after `lo`. */
  ghost predicate Above(lo: string, es: seq<Entry>)
  {
    forall i :: 0 <= i < |es| ==> Less(lo, es[i].key)
  }

  /** The store's contents as a map; the first entry for a key wins. */
  ghost function ToMap(es: seq<Entry>): map<string, StoredValue>
  {
    if es == [] then map[] else ToMap(es[1..])[es[0].key := es[0].value]
  }

  /** The keys of `es`, in order. */
  function Keys(es: seq<Entry>): (ks: seq<string>)
    ensures |ks| == |es|
    ensures forall i :: 0 <= i < |es| ==> ks[i] == es[i].key
  {
    if es == [] then [] else [es[0].key] + Keys(es[1..])
  }

  /** Point lookup. */
  function Get(es: seq<Entry>, key: string): (r: Option<StoredValue>)
    ensures r.Some? <==> key in ToMap(es)
    ensures r.Some? ==> r.value == ToMap(es)[key]
  {
    if es == [] then None
    else if es[0].key == key then Some(es[0].value)
    else Get(es[1..], key)
  }

  /** Insert or overwrite, keeping the key order. */
  function Put(es: seq<Entry>, key: string, value: StoredValue): seq<Entry>
  {
    if es == [] then [Entry(key, value)]
    else if es[0].key == key then [Entry(key, value)] + es[1..]
    else if Less(key, es[0].key) then [Entry(key, value)] + es
    else [es[0]] + Put(es[1..], key, value)
  }

  /** Remove a key (nothing happens when it is absent). */
  function Delete(es: seq<Entry>, key: string): seq<Entry>
  {
    if es == [] then []
    else if es[0].key == key then es[1..]
    else [es[0]] + Delete(es[1..], key)
  }

  /** The entries whose key starts with `prefix`, in store order: what a
      leveldb iterator over util.BytesPrefix(prefix) visits. */
  function WithPrefix(es: seq<Entry>, prefix: string): seq<Entry>
  {
    if es == [] then []
    else
      var init := WithPrefix(es[..|es| - 1], prefix);
      if HasPrefix(es[|es| - 1].key, prefix) then init + [es[|es| - 1]] else init
  }

  /** The entries with start <= key < limit in byte order: what a leveldb
      iterator over util.Range{Start, Limit} visits. */
  function InRange(es: seq<Entry>, start: string, limit: string): seq<Entry>
  {
    if es == [] then []
    else
      var init := InRange(es[..|es| - 1], start, limit);
      var k := es[|es| - 1].key;
      if !Less(k, start) && Less(k, limit) then init + [es[|es| - 1]] else init
  }

  // ---------------------------------------------------------------------
  // Lemmas: the sequence operations implement the map operations

  lemma SortedTail(es: seq<Entry>)
    requires Sorted(es) && es != []
    ensures Sorted(es[1..]) && Above(es[0].key, es[1..])
  {
  }

  lemma AboveCons(lo: string, e: Entry, es: seq<Entry>)
    requires Less(lo, e.key) && Above(lo, es)
    ensures Above(lo, [e] + es)
  {
  }

  lemma {:induction false} AboveNotIn(lo: string, es: seq<Entry>)
    requires Above(lo, es)
    ensures lo !in ToMap(es)
  {
    if es != [] {
      LessIrreflexive(lo);
      AboveNotIn(lo, es[1..]);
    }
  }

  /** If lo < k and k is below all of `es`, then lo is below all of `es`. */
  lemma AboveLower(lo: string, k: string, es: seq<Entry>)
    requires Less(lo, k) && Above(k, es)
    ensures Above(lo, es)
  {
    forall i | 0 <= i < |es|
      ensures Less(lo, es[i].key)
    {
      LessTransitive(lo, k, es[i].key);
    }
  }

  lemma {:induction false} PutAbove(es: seq<Entry>, key: string, value: StoredValue, lo: string)
    requires Above(lo, es) && Less(lo, key)
    ensures Above(lo, Put(es, key, value))
  {
    if es != [] && es[0].key != key && !Less(key, es[0].key) {
      PutAbove(es[1..], key, value, lo);
      AboveCons(lo, es[0], Put(es[1..], key, value));
    } else if es != [] && es[0].key == key {
      AboveCons(lo, Entry(key, value), es[1..]);
    } else {
      AboveCons(lo, Entry(key, value), es);
    }
  }

  lemma {:induction false} PutMap(es: seq<Entry>, key: string, value: StoredValue)
    ensures ToMap(Put(es, key, value)) == ToMap(es)[key := value]
  {
    if es != [] && es[0].key != key && !Less(key, es[0].key) {
      PutMap(es[1..], key, value);
      assert Put(es, key, value) == [es[0]] + Put(es[1..], key, value);
    }
  }

  lemma {:induction false} PutSorted(es: seq<Entry>, key: string, value: StoredValue)
    requires Sorted(es)
    ensures Sorted(Put(es, key, value))
  {
    if es == [] {
    } else if es[0].key == key {
      SortedTail(es);
      SortedCons(Entry(key, value), es[1..]);
    } else if Less(key, es[0].key) {
      SortedTail(es);
      AboveLower(key, es[0].key, es[1..]);
      AboveCons(key, es[0], es[1..]);
      assert [es[0]] + es[1..] == es;
      SortedCons(Entry(key, value), es);
    } else {
      SortedTail(es);
      LessTotal(key, es[0].key);
      PutSorted(es[1..], key, value);
      PutAbove(es[1..], key, value, es[0].key);
      SortedCons(es[0], Put(es[1..], key, value));
    }
  }

  /** An entry below every key of a sorted sequence can go in front. */
  lemma SortedCons(e: Entry, es: seq<Entry>)
    requires Sorted(es) && Above(e.key, es)
    ensures Sorted([e] + es)
  {
    var r := [e] + es;
    forall i, j | 0 <= i < j < |r|
      ensures Less(r[i].key, r[j].key)
    {
      assert r[j] == es[j - 1];
      if i > 0 {
        assert r[i] == es[i - 1];
      }
    }
  }

  lemma PutCorrect(es: seq<Entry>, key: string, value: StoredValue)
    requires Sorted(es)
    ensures Sorted(Put(es, key, value))
    ensures ToMap(Put(es, key, value)) == ToMap(es)[key := value]
  {
    PutSorted(es, key, value);
    PutMap(es, key, value);
  }

  lemma {:induction false} DeleteCorrect(es: seq<Entry>, key: string)
    requires Sorted(es)
    ensures Sorted(Delete(es, key))
    ensures ToMap(Delete(es, key)) == ToMap(es) - {key}
    ensures forall lo :: Above(lo, es) ==> Above(lo, Delete(es, key))
  {
    if es == [] {
    } else if es[0].key == key {
      SortedTail(es);
      AboveNotIn(key, es[1..]);
    } else {
      SortedTail(es);
      DeleteCorrect(es[1..], key);
      var d := Delete(es[1..], key);
      assert Delete(es, key) == [es[0]] + d;
      SortedCons(es[0], d);
      forall lo | Above(lo, es)
        ensures Above(lo, Delete(es, key))
      {
        assert Above(lo, es[1..]);
        AboveCons(lo, es[0], d);
      }
    }
  }

  lemma {:induction false} ToMapKeys(es: seq<Entry>)
    ensures forall i :: 0 <= i < |es| ==> es[i].key in ToMap(es)
    ensures forall k :: k in ToMap(es) ==> exists i :: 0 <= i < |es| && es[i].key == k
  {
    if es != [] {
      ToMapKeys(es[1..]);
      forall k | k in ToMap(es)
        ensures exists i :: 0 <= i < |es| && es[i].key == k
      {
        if k != es[0].key {
          var i :| 0 <= i < |es[1..]| && es[1..][i].key == k;
          assert es[i + 1].key == k;
        }
      }
    }
  }

  /** In a sorted store every entry is what the map holds for its key. */
  lemma {:induction false} ToMapSorted(es: seq<Entry>)
    requires Sorted(es)
    ensures forall i :: 0 <= i < |es| ==> es[i].key in ToMap(es) && ToMap(es)[es[i].key] == es[i].value
  {
    if es != [] {
      SortedTail(es);
      ToMapSorted(es[1..]);
      forall i | 0 <= i < |es|
        ensures es[i].key in ToMap(es) && ToMap(es)[es[i].key] == es[i].value
      {
        if i > 0 {
          assert es[i] == es[1..][i - 1];
          LessIrreflexive(es[0].key);
        }
      }
    }
  }

  /** Appending an entry with a new key adds that key to the map. */
  lemma {:induction false} ToMapSnoc(es: seq<Entry>, e: Entry)
    requires e.key !in ToMap(es)
    ensures ToMap(es + [e]) == ToMap(es)[e.key := e.value]
  {
    if es != [] {
      assert (es + [e])[1..] == es[1..] + [e];
      ToMapSnoc(es[1..], e);
    }
  }

  /** In a sorted store, the key after a prefix of the entries is new. */
  lemma NextKeyIsNew(es: seq<Entry>, i: nat)
    requires Sorted(es) && i < |es|
    ensures es[i].key !in ToMap(es[..i])
  {
    ToMapKeys(es[..i]);
    forall j | 0 <= j < i
      ensures es[..i][j].key != es[i].key
    {
      assert Less(es[j].key, es[i].key);
      LessIrreflexive(es[i].key);
    }
  }

  /** The prefix scan visits exactly the entries with the prefix, in store
      order. */
  lemma {:induction false} WithPrefixMembers(es: seq<Entry>, prefix: string)
    ensures forall e :: e in WithPrefix(es, prefix) <==> e in es && HasPrefix(e.key, prefix)
    ensures Sorted(es) ==> Sorted(WithPrefix(es, prefix))
  {
    if es != [] {
      var init := es[..|es| - 1];
      WithPrefixMembers(init, prefix);
      assert es == init + [es[|es| - 1]];
      if Sorted(es) {
        var w := WithPrefix(init, prefix);
        forall i | 0 <= i < |w|
          ensures Less(w[i].key, es[|es| - 1].key)
        {
          assert w[i] in init;
        }
      }
    }
  }

  /** What a prefix scan of a sorted store holds: the store's map cut down
      to the keys with that prefix. */
  lemma WithPrefixMap(es: seq<Entry>, prefix: string)
    requires Sorted(es)
    ensures Sorted(WithPrefix(es, prefix))
    ensures forall k :: k in ToMap(WithPrefix(es, prefix)) <==> k in ToMap(es) && HasPrefix(k, prefix)
    ensures forall k :: k in ToMap(WithPrefix(es, prefix)) ==> ToMap(WithPrefix(es, prefix))[k] == ToMap(es)[k]
  {
    var w := WithPrefix(es, prefix);
    WithPrefixMembers(es, prefix);
    ToMapKeys(es);
    ToMapKeys(w);
    ToMapSorted(es);
    ToMapSorted(w);
    forall k | k in ToMap(es) && HasPrefix(k, prefix)
      ensures k in ToMap(w)
    {
      var i :| 0 <= i < |es| && es[i].key == k;
      assert es[i] in w;
    }
    forall k | k in ToMap(w)
      ensures k in ToMap(es) && HasPrefix(k, prefix) && ToMap(w)[k] == ToMap(es)[k]
    {
      var i :| 0 <= i < |w| && w[i].key == k;
      assert w[i] in es;
    }
  }

  lemma {:induction false} InRangeMembers(es: seq<Entry>, start: string, limit: string)
    ensures forall e :: e in InRange(es, start, limit) <==>
      e in es && !Less(e.key, start) && Less(e.key, limit)
  {
    if es != [] {
      var init := es[..|es| - 1];
      InRangeMembers(init, start, limit);
      assert es == init + [es[|es| - 1]];
    }
  }

  /** The store object. */
  class DB {
    var entries: seq<Entry>

    ghost predicate Valid()
      reads this
    {
      Sorted(entries)
    }

    /** An empty store. */
    constructor ()
      ensures Valid() && entries == []
    {
      entries := [];
    }
  }
}
