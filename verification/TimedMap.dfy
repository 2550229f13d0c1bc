/** What the in-process replay caches have in common: entries with a time of last use, a limit on their number, eviction
    of the oldest in batches, and expiry. */
module TimedMap {
  import opened Eviction

  /** The same in every cache of the package. */
  const TTL: int := 3_600_000_000_000   // nanoseconds
  const MAX_ENTRIES: nat := 10240
  const EVICT_BATCH: nat := 128

  datatype Timed<+V> = Timed(value: V, timestamp: int)

  function Values<K, V>(entries: map<K, Timed<V>>): map<K, V> {
    map k | k in entries :: entries[k].value
  }

  lemma ValuesPut<K, V>(entries: map<K, Timed<V>>, key: K, e: Timed<V>)
    ensures Values(entries[key := e]) == Values(entries)[key := e.value]
    ensures |entries[key := e]| == |entries| + (if key in entries then 0 else 1)
  {
    assert entries[key := e].Keys == entries.Keys + {key};
  }

  /** Looking at an entry changes its time only. */
  lemma ValuesTouch<K, V>(entries: map<K, Timed<V>>, key: K, now: int)
    requires key in entries
    ensures var touched := entries[key := entries[key].(timestamp := now)];
            Values(touched) == Values(entries) && |touched| == |entries|
  {
    assert entries[key := entries[key].(timestamp := now)].Keys == entries.Keys;
  }

  lemma ValuesDrop<K, V>(entries: map<K, Timed<V>>, keys: set<K>)
    ensures Values(entries - keys) == Values(entries) - keys
    ensures |entries - keys| <= |entries| && (keys <= entries.Keys ==> |entries - keys| == |entries| - |keys|)
  {
    assert (entries - keys).Keys == entries.Keys - keys;
    Partition(entries.Keys, entries.Keys * keys);
    assert entries.Keys - keys == entries.Keys - entries.Keys * keys;
    assert keys <= entries.Keys ==> entries.Keys * keys == keys;
  }

  lemma ValuesKeys<K, V>(entries: map<K, Timed<V>>)
    ensures Values(entries).Keys == entries.Keys
  {
  }

  lemma ValueAt<K, V>(entries: map<K, Timed<V>>, key: K)
    requires key in entries
    ensures key in Values(entries) && Values(entries)[key] == entries[key].value
    ensures Values(entries)[key := entries[key].value] == Values(entries)
  {
  }

  function Stamps<K, V>(entries: map<K, Timed<V>>): (stamps: map<K, int>)
    ensures stamps.Keys == entries.Keys && |stamps| == |entries|
  {
    var stamps := map k | k in entries :: entries[k].timestamp;
    assert stamps.Keys == entries.Keys;
    stamps
  }

  lemma BatchWithin<K(!new), V>(entries: map<K, Timed<V>>, count: nat, victims: set<K>)
    requires OldestBatch(Stamps(entries), count, victims)
    ensures victims <= entries.Keys && |victims| == (if count < |entries| then count else |entries|)
    ensures |entries - victims| == |entries| - |victims|
  {
    ValuesDrop(entries, victims);
  }

  /** What goes when the cache is over its limit: one oldest batch, and nothing as long as it is not. */
  ghost predicate MadeRoom<K(!new), V>(entries: map<K, Timed<V>>, victims: set<K>) {
    if |entries| <= MAX_ENTRIES then victims == {} else OldestBatch(Stamps(entries), EVICT_BATCH, victims)
  }

  // ----- expiry -----

  function Expired<K, V>(entries: map<K, Timed<V>>, now: int): set<K> {
    set k | k in entries && now - entries[k].timestamp > TTL
  }

  /** What is stored while a purge still has these keys to look at. */
  ghost predicate Purging<K, V>(before: map<K, Timed<V>>, now: int, pending: set<K>, entries: map<K, Timed<V>>) {
    pending <= before.Keys && entries == before - (Expired(before, now) - pending)
  }

  lemma PurgeStart<K, V>(before: map<K, Timed<V>>, now: int)
    ensures Purging(before, now, before.Keys, before)
  {
    assert before - (Expired(before, now) - before.Keys) == before;
  }

  lemma PurgeStep<K, V>(before: map<K, Timed<V>>, now: int, pending: set<K>, entries: map<K, Timed<V>>, key: K)
    requires Purging(before, now, pending, entries) && key in pending
    ensures key in entries
    ensures Purging(before, now, pending - {key}, if now - entries[key].timestamp > TTL then entries - {key} else entries)
  {
    assert entries[key] == before[key];
    if now - entries[key].timestamp > TTL {
      assert Expired(before, now) - (pending - {key}) == Expired(before, now) - pending + {key};
    } else {
      assert Expired(before, now) - (pending - {key}) == Expired(before, now) - pending;
    }
  }

  lemma PurgeEnd<K, V>(before: map<K, Timed<V>>, now: int, entries: map<K, Timed<V>>)
    requires Purging(before, now, {}, entries)
    ensures entries == before - Expired(before, now)
    ensures Values(entries) == Values(before) - Expired(before, now) && |entries| <= |before|
  {
    assert Expired(before, now) - {} == Expired(before, now);
    ValuesDrop(before, Expired(before, now));
  }
}
