/** The bounded cache of generation logs keyed by reply message id
    (core/bot_workflow/response_logs.py). Python dicts remember insertion
    order, so the store is modelled as the key order plus the key-to-log map;
    when the store grows past its capacity the earliest-inserted key is
    deleted. The "Saved log" console line is not modelled. */
module ResponseLogs {
  import opened Base

  const DEFAULT_LOG_CAPACITY: int := 10

  /** The dict's state: its keys in insertion order and its contents. */
  datatype LogStore = LogStore(keys: seq<int>, logs: map<int, string>)

  /** The key order lists each key of the dict exactly once. */
  ghost predicate Valid(s: LogStore)
  {
    (forall i, j :: 0 <= i < j < |s.keys| ==> s.keys[i] != s.keys[j])
    && (forall k :: k in s.logs <==> k in s.keys)
  }

  /** `store_log(id, log)`: set the entry (a new key goes last, an existing
      key keeps its place), then delete the first key if over capacity. */
  function Store(s: LogStore, id: int, log: string, capacity: int): LogStore
  {
    var keys := if id in s.logs then s.keys else s.keys + [id];
    var logs := s.logs[id := log];
    if |logs| > capacity && keys != [] then LogStore(keys[1..], logs - {keys[0]})
    else LogStore(keys, logs)
  }

  /** `get_log_by_id` */
  function Get(s: LogStore, id: int): (r: Option<string>)
    ensures r.Some? <==> id in s.logs
    ensures r.Some? ==> r.value == s.logs[id]
  {
    if id in s.logs then Some(s.logs[id]) else None
  }

  lemma {:induction false} ValidSize(s: LogStore)
    requires Valid(s)
    ensures |s.logs| == |s.keys|
  {
    KeysCardinality(s.keys);
    assert s.logs.Keys == set k | k in s.keys;
  }

  lemma {:induction false} KeysCardinality(keys: seq<int>)
    requires forall i, j :: 0 <= i < j < |keys| ==> keys[i] != keys[j]
    ensures |set k | k in keys| == |keys|
  {
    if keys != [] {
      var rest := keys[1..];
      KeysCardinality(rest);
      assert (set k | k in keys) == {keys[0]} + (set k | k in rest);
      assert keys[0] !in rest;
    }
  }

  /** Storing keeps the key order in step with the dict. */
  lemma StoreKeepsValid(s: LogStore, id: int, log: string, capacity: int)
    requires Valid(s)
    ensures Valid(Store(s, id, log, capacity))
  {
    var keys := if id in s.logs then s.keys else s.keys + [id];
    var logs := s.logs[id := log];
    assert Valid(LogStore(keys, logs));
    if |logs| > capacity && keys != [] {
      forall k
        ensures k in logs - {keys[0]} <==> k in keys[1..]
      {
        if k in keys[1..] {
          var j :| 1 <= j < |keys| && keys[j] == k;
          assert k != keys[0];
        }
        if k in keys && k != keys[0] {
          var j :| 0 <= j < |keys| && keys[j] == k;
          assert keys[1..][j - 1] == k;
        }
      }
    }
  }

  /** Right after storing, with room for at least one entry and a store that
      was within capacity, the log is found under its id. */
  lemma {:induction false} StoreThenGet(s: LogStore, id: int, log: string, capacity: int)
    requires Valid(s) && capacity >= 1 && |s.keys| <= capacity
    ensures Get(Store(s, id, log, capacity), id) == Some(log)
  {
    ValidSize(s);
    var keys := if id in s.logs then s.keys else s.keys + [id];
    var logs := s.logs[id := log];
    ValidSize(LogStore(keys, logs));
    if |logs| > capacity {
      assert id !in s.logs;
      assert keys[0] != id by {
        assert keys[|keys| - 1] == id;
      }
    }
  }

  /** A store within capacity stays within capacity. */
  lemma {:induction false} StoreKeepsBound(s: LogStore, id: int, log: string, capacity: int)
    requires Valid(s) && 0 <= capacity && |s.keys| <= capacity
    ensures |Store(s, id, log, capacity).keys| <= capacity
    ensures |Store(s, id, log, capacity).logs| <= capacity
  {
    StoreKeepsValid(s, id, log, capacity);
    ValidSize(s);
    ValidSize(LogStore(if id in s.logs then s.keys else s.keys + [id], s.logs[id := log]));
    ValidSize(Store(s, id, log, capacity));
  }

  /** A new id stored into a full store evicts exactly one entry, the
      earliest-inserted one, and goes last in the order. */
  lemma {:induction false} StoreEvictsOldest(s: LogStore, id: int, log: string, capacity: int)
    requires Valid(s) && capacity >= 1 && |s.keys| == capacity && id !in s.logs
    ensures Store(s, id, log, capacity) == LogStore(s.keys[1..] + [id], s.logs[id := log] - {s.keys[0]})
  {
    ValidSize(s);
    assert (s.keys + [id])[1..] == s.keys[1..] + [id];
    assert |s.logs[id := log]| == |s.logs| + 1;
  }

  /** Storing under an id already present replaces the log in place: the
      key order is unchanged and nothing is evicted. */
  lemma {:induction false} StoreOverwrites(s: LogStore, id: int, log: string, capacity: int)
    requires Valid(s) && |s.keys| <= capacity && id in s.logs
    ensures Store(s, id, log, capacity) == LogStore(s.keys, s.logs[id := log])
  {
    ValidSize(s);
    assert s.logs[id := log].Keys == s.logs.Keys;
  }

  class ResponseLogsManager {
    const capacity: int
    var store: LogStore

    ghost predicate Inv()
      reads this
    {
      Valid(store)
    }

    constructor (logCapacity: int)
      ensures Inv() && capacity == logCapacity && store == LogStore([], map[])
    {
      capacity := logCapacity;
      store := LogStore([], map[]);
    }

    method StoreLog(messageId: int, log: string)
      requires Inv()
      modifies this
      ensures Inv()
      ensures store == Store(old(store), messageId, log, capacity)
    {
      var keys := store.keys;
      if messageId !in store.logs {
        keys := keys + [messageId];
      }
      var logs := store.logs[messageId := log];
      if |logs| > capacity && keys != [] {
        var oldestKey := keys[0];
        logs := logs - {oldestKey};
        keys := keys[1..];
      }
      store := LogStore(keys, logs);
      StoreKeepsValid(old(store), messageId, log, capacity);
    }

    function GetLogById(messageId: int): (r: Option<string>)
      reads this
      ensures r.Some? <==> messageId in store.logs
      ensures r.Some? ==> r.value == store.logs[messageId]
    {
      Get(store, messageId)
    }
  }
}
