/** model/machine_state.go: listing and reading the machine-state
    snapshots in the store. The JSON rendering is represented by the reply
    datatypes. */
module MachineState {
  import opened Wrappers
  import opened Text
  import opened HaLib
  import opened Db

  /** The body of the listing reply: {"error": ...}, JSON null, or
      {"keys": [...]}. */
  datatype ListBody = ListError(error: string) | NoBody | KeyList(keys: seq<string>)

  datatype ListReply = ListReply(code: int, body: ListBody)

  /** The body of the read reply: {"error": ...} or {"machineState": value}. */
  datatype StateBody = StateError(error: string) | StateValue(machineState: StoredValue)

  datatype StateReply = StateReply(code: int, body: StateBody)

  /** The snapshot key prefix. */
  const StatePrefix: string := "s-"

  /** ListMachieState: the keys of the "s-" entries in store order; 204
      with the error when the transaction does not open, 404 with no body
      when there are none. The store is not changed: the transaction is
      discarded. `openError` is the result of opening the transaction. */
  method ListMachieState(db: DB, openError: Option<string>) returns (reply: ListReply)
    requires db.Valid()
    ensures openError.Some? ==> reply == ListReply(StatusNoContent, ListError(openError.value))
    ensures openError.None? ==>
      var keys := Keys(WithPrefix(db.entries, StatePrefix));
      reply == if keys == [] then ListReply(StatusNotFound, NoBody) else ListReply(StatusOK, KeyList(keys))
  {
    if openError.Some? {
      return ListReply(StatusNoContent, ListError(openError.value));
    }
    var transaction := db.entries;
    var iter := WithPrefix(transaction, StatePrefix);
    var keys: seq<string> := [];
    for i := 0 to |iter|
      invariant keys == Keys(iter[..i])
    {
      assert iter[..i + 1] == iter[..i] + [iter[i]];
      KeysSnoc(iter[..i], iter[i]);
      keys := keys + [iter[i].key];
    }
    assert iter[..|iter|] == iter;
    if |keys| == 0 {
      return ListReply(StatusNotFound, NoBody);
    }
    return ListReply(StatusOK, KeyList(keys));
  }

  lemma KeysSnoc(es: seq<Entry>, e: Entry)
    ensures Keys(es + [e]) == Keys(es) + [e.key]
  {
  }

  /** The listed keys are exactly the stored keys that start with "s-",
      each once, in ascending byte order. */
  lemma ListedKeys(es: seq<Entry>)
    requires Sorted(es)
    ensures var keys := Keys(WithPrefix(es, StatePrefix));
      && (forall k :: k in keys <==> k in ToMap(es) && HasPrefix(k, StatePrefix))
      && (forall i, j :: 0 <= i < j < |keys| ==> Less(keys[i], keys[j]))
  {
    var w := WithPrefix(es, StatePrefix);
    WithPrefixMap(es, StatePrefix);
    WithPrefixMembers(es, StatePrefix);
    ToMapKeys(w);
    var keys := Keys(w);
    forall k | k in ToMap(w)
      ensures k in keys
    {
      var i :| 0 <= i < |w| && w[i].key == k;
      assert keys[i] == k;
    }
  }

  /** GetMachineState: the value stored under any key, whatever its
      prefix, or 404 with the store's not-found error. */
  function GetMachineState(entries: seq<Entry>, key: string): (r: StateReply)
    ensures key in ToMap(entries) <==> r.code == StatusOK
    ensures key in ToMap(entries) ==> r.body == StateValue(ToMap(entries)[key])
    ensures key !in ToMap(entries) ==> r == StateReply(StatusNotFound, StateError(ErrNotFound))
  {
    match Get(entries, key)
    case None => StateReply(StatusNotFound, StateError(ErrNotFound))
    case Some(val) => StateReply(StatusOK, StateValue(val))
  }

  /** A snapshot just put under a key is what a read of that key returns. */
  lemma ReadAfterPut(entries: seq<Entry>, key: string, value: StoredValue)
    requires Sorted(entries)
    ensures GetMachineState(Put(entries, key, value), key) == StateReply(StatusOK, StateValue(value))
  {
    PutCorrect(entries, key, value);
  }
}
