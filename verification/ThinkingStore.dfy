/** The in-process store shared in form by the Claude and Kimi thinking-replay caches: timestamped entries and a
    running byte total, kept within an entry limit and a byte limit by evicting the oldest entries in batches. */
module ThinkingStore {
  import opened Bytes
  import opened GenerationMachine
  import opened Eviction
  import opened TimedMap

  const MAX_TOTAL_BYTES: nat := 0x1000_0000

  type Entry<+C> = Timed<Slot<C>>

  /** The zero value is what Get returns for an empty key. */
  datatype Snapshot = Snapshot(generation: nat, loaded: bool, found: bool)

  const NO_SNAPSHOT := Snapshot(0, false, false)

  function EntryBytes<C>(size: C -> nat, e: Entry<C>): nat {
    if e.value.Live? then size(e.value.content) else 0
  }

  /** The bytes of all entries, added up in any order. */
  ghost function Sum<C(!new)>(size: C -> nat, entries: map<Key, Entry<C>>): nat
    decreases |entries|
  {
    if entries == map[] then 0
    else
      var k :| k in entries;
      EntryBytes(size, entries[k]) + Sum(size, entries - {k})
  }

  lemma {:induction false} SumRemove<C(!new)>(size: C -> nat, entries: map<Key, Entry<C>>, key: Key)
    requires key in entries
    ensures Sum(size, entries) == EntryBytes(size, entries[key]) + Sum(size, entries - {key})
    decreases |entries|
  {
    var k :| k in entries && Sum(size, entries) == EntryBytes(size, entries[k]) + Sum(size, entries - {k});
    if k != key {
      SumRemove(size, entries - {k}, key);
      SumRemove(size, entries - {key}, k);
      assert entries - {k} - {key} == entries - {key} - {k};
    }
  }

  lemma SumPut<C(!new)>(size: C -> nat, entries: map<Key, Entry<C>>, key: Key, e: Entry<C>)
    ensures Sum(size, entries[key := e]) == EntryBytes(size, e) + Sum(size, entries - {key})
  {
    SumRemove(size, entries[key := e], key);
    assert entries[key := e] - {key} == entries - {key};
  }

  lemma SumWithout<C(!new)>(size: C -> nat, entries: map<Key, Entry<C>>, key: Key)
    ensures Sum(size, entries - {key}) == Sum(size, entries) - (if key in entries then EntryBytes(size, entries[key]) else 0)
  {
    if key in entries {
      SumRemove(size, entries, key);
    } else {
      assert entries - {key} == entries;
    }
  }

  /** What counts is the content of live entries; tombstones count nothing. */
  lemma SumOfOne<C(!new)>(size: C -> nat, key: Key, generation: nat, content: C, now: int)
    ensures Sum(size, map[key := Timed(Live(generation, content), now)]) == size(content)
    ensures Sum(size, map[key := Timed(Tomb(generation), now)]) == 0
  {
    SumPut(size, map[], key, Timed(Live(generation, content), now));
    SumPut(size, map[], key, Timed(Tomb(generation), now));
    var none: map<Key, Entry<C>> := map[];
    assert none - {key} == none;
  }

  /** Victims are entries, and no survivor is older than any of them. */
  ghost predicate OldestFirst<C(!new)>(entries: map<Key, Entry<C>>, victims: set<Key>) {
    && victims <= entries.Keys
    && forall v, k :: v in victims && k in entries && k !in victims ==> entries[v].timestamp <= entries[k].timestamp
  }

  ghost predicate OverLimit<C(!new)>(size: C -> nat, entries: map<Key, Entry<C>>) {
    |entries| > MAX_ENTRIES || Sum(size, entries) > MAX_TOTAL_BYTES
  }

  /** Eviction stops as soon as it may: without its last batch a limit would still be exceeded. */
  ghost predicate LastBatch<C(!new)>(size: C -> nat, before: map<Key, Entry<C>>, prior: set<Key>, victims: set<Key>) {
    && prior <= victims && OverLimit(size, before - prior)
    && OldestBatch(Stamps(before - prior), EVICT_BATCH, victims - prior)
  }

  /** What enforcing the limits removes: nothing within the limits, else the oldest, batch by batch, as long as needed. */
  ghost predicate Enforced<C(!new)>(size: C -> nat, before: map<Key, Entry<C>>, victims: set<Key>) {
    && OldestFirst(before, victims)
    && if OverLimit(size, before) then exists prior :: LastBatch(size, before, prior, victims) else victims == {}
  }

  /** One entry was stored, and then the limits were enforced. */
  ghost predicate Stored<C(!new)>(size: C -> nat, before: map<Key, Entry<C>>, after: map<Key, Entry<C>>,
                                  key: Key, entry: Entry<C>, dropped: set<Key>)
  {
    Enforced(size, before[key := entry], dropped) && after == before[key := entry] - dropped
  }

  /** A missing or expired entry made way for a tombstone, which is there even if enforcing the limits evicted it. */
  ghost predicate Renewed<C(!new)>(size: C -> nat, before: map<Key, Entry<C>>, after: map<Key, Entry<C>>,
                                   key: Key, tombstone: Entry<C>, dropped: set<Key>)
  {
    var reserved := (before - {key})[key := tombstone];
    exists victims :: dropped == victims + {key} && Enforced(size, reserved, victims)
                      && after == (reserved - victims)[key := tombstone]
  }

  lemma RenewedBy<C(!new)>(size: C -> nat, before: map<Key, Entry<C>>, mid: map<Key, Entry<C>>,
                           key: Key, tombstone: Entry<C>, victims: set<Key>)
    requires Stored(size, before - {key}, mid, key, tombstone, victims)
    ensures Renewed(size, before, mid[key := tombstone], key, tombstone, victims + {key})
  {
    hide Enforced;
  }

  lemma EnforcedBy<C(!new)>(size: C -> nat, before: map<Key, Entry<C>>, prior: set<Key>, victims: set<Key>)
    requires OldestFirst(before, victims)
    requires if OverLimit(size, before) then LastBatch(size, before, prior, victims) else victims == {}
    ensures Enforced(size, before, victims)
  {
  }

  lemma OverLimitMeans<C(!new)>(size: C -> nat, entries: map<Key, Entry<C>>)
    ensures OverLimit(size, entries) <==> |entries| > MAX_ENTRIES || Sum(size, entries) > MAX_TOTAL_BYTES
  {
  }

  class ThinkingStore<C(!new, ==)> {
    const size: C -> nat
    var entries: map<Key, Entry<C>>
    var totalBytes: int
    var generations: nat   // generations drawn so far
    ghost var world: World<C>   // the same store as the machine sees it, with every slot handed out

    ghost function Abstract(): Store<C>
      reads this
    {
      Store(Values(entries), generations)
    }

    /** The running total is the sum over the stored entries. */
    ghost predicate Accounted()
      reads this
    {
      totalBytes == Sum(size, entries)
    }

    ghost predicate Bounded()
      reads this
    {
      Accounted() && |entries| <= MAX_ENTRIES && totalBytes <= MAX_TOTAL_BYTES
    }

    ghost predicate Valid()
      reads this
    {
      Bounded() && world.store == Abstract() && Inv(world)
    }

    constructor (size: C -> nat)
      ensures Valid() && world == World(Store(map[], 0), {}) && entries == map[] && this.size == size
    {
      this.size, entries, totalBytes, generations := size, map[], 0, 0;
      world := World(Store(map[], 0), {});
    }

    /** An operation is the machine's steps. */
    ghost method Record(events: seq<Event<C>>)
      requires Bounded() && Inv(world) && Abstract() == Play(world, events).store
      modifies this`world
      ensures Valid() && world == Play(old(world), events)
    {
      hide Inv, Sum, Values;
      PlayKeepsInv(world, events);
      world := Play(world, events);
    }

    method NewGeneration() returns (generation: nat)
      modifies this`generations
      ensures generation == generations == old(generations) + 1
    {
      generations := generations + 1;
      generation := generations;
    }

    /** Store one entry and account for it in place of what the key held. */
    method PutEntry(key: Key, slot: Slot<C>, now: int)
      requires Accounted()
      modifies this`entries, this`totalBytes
      ensures Accounted() && entries == old(entries)[key := Timed(slot, now)]
      ensures |entries| == |old(entries)| + (if key in old(entries) then 0 else 1)
      ensures Values(entries) == Values(old(entries))[key := slot]
      ensures totalBytes == old(totalBytes) - (if key in old(entries) then EntryBytes(size, old(entries)[key]) else 0)
                            + EntryBytes(size, Timed(slot, now))
    {
      hide Sum, Values;
      var e := Timed(slot, now);
      SumWithout(size, entries, key);
      SumPut(size, entries, key, e);
      ValuesPut(entries, key, e);
      if key in entries {
        totalBytes := totalBytes - EntryBytes(size, entries[key]);
      }
      totalBytes := totalBytes + EntryBytes(size, e);
      entries := entries[key := e];
    }

    method RemoveEntry(key: Key)
      requires Accounted()
      modifies this`entries, this`totalBytes
      ensures Accounted() && entries == old(entries) - {key}
      ensures Values(entries) == Values(old(entries)) - {key} && |entries| <= |old(entries)| && totalBytes <= old(totalBytes)
    {
      hide Sum, Values;
      SumWithout(size, entries, key);
      ValuesDrop(entries, {key});
      if key in entries {
        totalBytes := totalBytes - EntryBytes(size, entries[key]);
        entries := entries - {key};
      } else {
        assert entries - {key} == entries;
      }
    }

    /** evictOldestClaudeThinkingReplayEntriesLocked: drop the oldest entries and subtract their bytes. */
    method EvictOldest(count: nat) returns (ghost victims: set<Key>)
      requires Accounted()
      modifies this`entries, this`totalBytes
      ensures Accounted() && OldestBatch(Stamps(old(entries)), count, victims)
      ensures entries == old(entries) - victims
    {
      hide Sum, Values, Stamps, OldestBatch;
      var candidates := OldestKeys(Stamps(entries), count);
      victims := SetOf(candidates);
      RemoveAll(candidates);
    }

    method RemoveAll(keys: seq<Key>)
      requires Accounted()
      modifies this`entries, this`totalBytes
      ensures Accounted() && entries == old(entries) - SetOf(keys)
    {
      hide Sum, Values, SetOf;
      ghost var before := entries;
      SetOfNone<Key>();
      for i := 0 to |keys|
        invariant Accounted() && entries == before - SetOf(keys[..i])
      {
        SetOfNext(keys, i);
        MinusMore(before, SetOf(keys[..i]), keys[i]);
        RemoveEntry(keys[i]);
      }
      assert keys[..|keys|] == keys;
    }

    /** enforceClaudeThinkingReplayLimitsLocked.  The loop ends because every round removes entries; the total is
        positive only while entries remain, so the source's reset of a non-zero total of an empty map is dead. */
    method EnforceLimits() returns (ghost victims: set<Key>)
      requires Accounted()
      modifies this`entries, this`totalBytes
      ensures Bounded() && entries == old(entries) - victims && Enforced(size, old(entries), victims)
      ensures victims == {} || |entries| == 0 || |entries| + EVICT_BATCH <= |old(entries)|
      ensures Values(entries) == Values(old(entries)) - victims
    {
      hide Values, Sum, Stamps, OldestBatch, OldestFirst, LastBatch, OverLimit;
      victims := {};
      ghost var before, prior := entries, {};
      NoVictims(before);
      OverLimitMeans(size, before);
      assert entries == before - {};
      while |entries| > MAX_ENTRIES || totalBytes > MAX_TOTAL_BYTES
        invariant Accounted() && entries == before - victims && OldestFirst(before, victims)
        invariant if victims == {} then totalBytes == old(totalBytes)
                  else OverLimit(size, before) && LastBatch(size, before, prior, victims)
        invariant victims == {} || |entries| == 0 || |entries| + EVICT_BATCH <= |before|
        decreases |entries|
      {
        SumOfNothing(size, entries);
        assert |entries| > 0;
        ghost var batch := EvictOldest(EVICT_BATCH);
        BatchIsOlder(before, victims, batch);
        BatchShrinks(before - victims, batch);
        DropTwice(before, victims, batch);
        BatchWasDue(size, before, victims, batch);
        prior := victims;
        victims := victims + batch;
      }
      ValuesDrop(before, victims);
      EnforcedBy(size, before, prior, victims);
    }

    /** storeClaudeThinkingReplayLocal: an unconditional overwrite. */
    method Overwrite(key: Key, content: C, now: int) returns (ghost dropped: set<Key>)
      requires Valid()
      modifies this
      ensures Valid() && world == Play(old(world), [Event.Overwrite(key, content), Drop(dropped)])
      ensures Stored(size, old(entries), entries, key, Timed(Live(old(generations) + 1, content), now), dropped)
    {
      hide Sum, Values, Inv, Play, Enforced;
      var generation := NewGeneration();
      PutEntry(key, Live(generation, content), now);
      dropped := EnforceLimits();
      PlayTwo(world, Event.Overwrite(key, content), Drop(dropped));
      Record([Event.Overwrite(key, content), Drop(dropped)]);
    }

    /** reserveClaudeThinkingReplayLocalLocked for a key without an entry.  The caller writes the tombstone once
        more after the limits were enforced, so it is there even if it was itself evicted. */
    method Reserve(key: Key, now: int) returns (entry: Entry<C>, ghost victims: set<Key>)
      requires Bounded() && key !in entries
      modifies this`entries, this`totalBytes, this`generations
      ensures Bounded() && |entries| + (if key in entries then 0 else 1) <= MAX_ENTRIES
      ensures entry == Timed(Tomb(old(generations) + 1), now) && generations == old(generations) + 1
      ensures Values(entries) == Values(old(entries))[key := entry.value] - victims
      ensures key in entries ==> entries[key] == entry
      ensures Stored(size, old(entries), entries, key, entry, victims)
    {
      hide Sum, Values, Enforced;
      var generation := NewGeneration();
      entry := Timed(Tomb(generation), now);
      PutEntry(key, entry.value, now);
      victims := EnforceLimits();
    }

    /** GetClaudeThinkingReplayWithSnapshotRequired, in-process form. */
    method Get(key: Key, now: int) returns (content: Option<C>, snapshot: Snapshot, ghost dropped: set<Key>)
      requires Valid()
      modifies this
      ensures Valid()
      ensures key == "" ==>
                && content == None && !snapshot.loaded && !snapshot.found && world == old(world) && entries == old(entries)
      ensures key != "" ==>
                && world == Play(old(world), [Drop(dropped), Read(key)])
                && key in entries && entries[key].timestamp == now
                && snapshot == Snapshot(entries[key].value.generation, true, true)
                && (key, entries[key].value) in world.issued
                && content == (if entries[key].value.Live? then Some(entries[key].value.content) else None)
      ensures key != "" && key in old(entries) && now - old(entries)[key].timestamp <= TTL ==>
                entries == old(entries)[key := old(entries)[key].(timestamp := now)] && dropped == {}
      ensures key != "" && !(key in old(entries) && now - old(entries)[key].timestamp <= TTL) ==>
                Renewed(size, old(entries), entries, key, Timed(Tomb(old(generations) + 1), now), dropped)
    {
      hide Sum, Values, Step, Inv, Play, Enforced, Stored, Renewed;
      content, snapshot, dropped := None, NO_SNAPSHOT, {};
      if key == "" {
        return;
      }
      var entry;
      ghost var was := Abstract();
      if key !in entries || now - entries[key].timestamp > TTL {
        RemoveEntry(key);
        ghost var victims;
        entry, victims := Reserve(key, now);
        dropped := victims + {key};
        RenewedBy(size, old(entries), entries, key, entry, victims);
        ReservedLate(was, key, victims);
      } else {
        entry := entries[key].(timestamp := now);
        ValueAt(entries, key);
        ReadPresent(was, key);
      }
      PutEntry(key, entry.value, now);
      PlayTwo(world, Drop(dropped), Read(key));
      Record([Drop(dropped), Read(key)]);
      ValueAt(entries, key);
      snapshot := Snapshot(entry.value.generation, true, true);
      content := if entry.value.Live? then Some(entry.value.content) else None;
    }

    /** Whether the entry is the one the snapshot read. */
    predicate Unchanged(key: Key, snapshot: Snapshot)
      reads this
    {
      (key in entries) == snapshot.found && (key in entries ==> entries[key].value.generation == snapshot.generation)
    }

    /** The tail of ReplaceClaudeThinkingReplayIfUnchanged once the snapshot proved current. */
    method PublishContent(key: Key, snapshot: Snapshot, content: C, now: int) returns (ghost dropped: set<Key>)
      requires Valid() && snapshot.found && Unchanged(key, snapshot)
      modifies this
      ensures Valid() && world == Play(old(world), [Publish(key, snapshot.generation, content), Drop(dropped)])
      ensures Stored(size, old(entries), entries, key, Timed(Live(old(generations) + 1, content), now), dropped)
    {
      hide Sum, Values, Inv, Play, Enforced;
      ValueAt(entries, key);
      var generation := NewGeneration();
      PutEntry(key, Live(generation, content), now);
      dropped := EnforceLimits();
      PlayTwo(world, Publish(key, snapshot.generation, content), Drop(dropped));
      Record([Publish(key, snapshot.generation, content), Drop(dropped)]);
    }

    /** DeleteClaudeThinkingReplayIfUnchanged, in-process form, for a snapshot Get returned. */
    method DeleteIfUnchanged(key: Key, snapshot: Snapshot, now: int) returns (ok: bool)
      requires Valid() && (snapshot.loaded ==> snapshot.found)
      modifies this
      ensures Valid()
      ensures key == "" ==> !ok && world == old(world)
      ensures key != "" && !snapshot.loaded ==> ok && world == Play(old(world), [Drop({key})])
      ensures entries == if !ok then old(entries) else if !snapshot.loaded then old(entries) - {key}
                         else old(entries)[key := Timed(Tomb(old(generations) + 1), now)]
      ensures key != "" && snapshot.loaded ==>
                && (ok <==> Matches(old(world).store, key, snapshot.generation))
                && world == Play(old(world), [DeleteIf(key, snapshot.generation)])
    {
      hide Sum, Values, Inv, Play;
      ok := false;
      PlayOne(world, DeleteIf(key, snapshot.generation));
      if key == "" {
        return;
      }
      if !snapshot.loaded {
        Delete(key);
        return true;
      }
      ValuesKeys(entries);
      if key in entries {
        ValueAt(entries, key);
      }
      if !Unchanged(key, snapshot) {
        return;
      }
      var generation := NewGeneration();
      PutEntry(key, Tomb(generation), now);
      Record([DeleteIf(key, snapshot.generation)]);
      ok := true;
    }

    /** DeleteClaudeThinkingReplayRequired, in-process form. */
    method Delete(key: Key)
      requires Valid()
      modifies this`entries, this`totalBytes, this`world
      ensures Valid() && world == if key == "" then old(world) else Play(old(world), [Drop({key})])
      ensures entries == if key == "" then old(entries) else old(entries) - {key}
    {
      hide Sum, Values, Inv, Play;
      if key != "" {
        RemoveEntry(key);
        PlayOne(world, Drop({key}));
        Record([Drop({key})]);
      }
    }

    /** ClearClaudeThinkingReplayCache */
    method Clear()
      requires Valid()
      modifies this`entries, this`totalBytes, this`world
      ensures Valid() && entries == map[] && totalBytes == 0 && world == Play(old(world), [Drop(old(entries).Keys)])
    {
      hide Inv, Play;
      ghost var keys := entries.Keys;
      ValuesKeys(entries);
      assert Values(entries) - keys == map[];
      entries, totalBytes := map[], 0;
      PlayOne(world, Drop(keys));
      Record([Drop(keys)]);
    }

    /** purgeExpiredClaudeThinkingReplayCache: exactly the entries past their time to live go. */
    method PurgeExpired(now: int)
      requires Valid()
      modifies this`entries, this`totalBytes, this`world
      ensures Valid() && world == Play(old(world), [Drop(Expired(old(entries), now))])
      ensures entries == old(entries) - Expired(old(entries), now)
    {
      hide Sum, Values, Expired, Inv, Play;
      ghost var before := entries;
      DropExpired(now);
      PlayOne(world, Drop(Expired(before, now)));
      Record([Drop(Expired(before, now))]);
    }

    method DropExpired(now: int)
      requires Bounded()
      modifies this`entries, this`totalBytes
      ensures Bounded() && entries == old(entries) - Expired(old(entries), now)
      ensures Values(entries) == Values(old(entries)) - Expired(old(entries), now)
    {
      hide Sum, Values, Purging, Expired;
      ghost var before := entries;
      var pending := entries.Keys;
      PurgeStart(before, now);
      while pending != {}
        invariant Accounted() && totalBytes <= old(totalBytes) && Purging(before, now, pending, entries)
        decreases pending
      {
        var key :| key in pending;
        PurgeStep(before, now, pending, entries, key);
        pending := pending - {key};
        if now - entries[key].timestamp > TTL {
          RemoveEntry(key);
        }
      }
      PurgeEnd(before, now, entries);
    }
  }

  lemma MinusMore<C>(entries: map<Key, Entry<C>>, keys: set<Key>, key: Key)
    ensures entries - keys - {key} == entries - (keys + {key})
  {
  }

  lemma NoVictims<C(!new)>(entries: map<Key, Entry<C>>)
    ensures OldestFirst(entries, {})
  {
  }

  /** A positive total has entries behind it. */
  lemma SumOfNothing<C(!new)>(size: C -> nat, entries: map<Key, Entry<C>>)
    ensures |entries| == 0 ==> Sum(size, entries) == 0
  {
    assert |entries| == 0 ==> entries == map[];
  }

  lemma BatchIsOlder<C(!new)>(before: map<Key, Entry<C>>, victims: set<Key>, batch: set<Key>)
    requires OldestFirst(before, victims) && OldestBatch(Stamps(before - victims), EVICT_BATCH, batch)
    ensures OldestFirst(before, victims + batch)
  {
    var rest := before - victims;
    assert forall v, k :: v in batch && k in rest && k !in batch ==> Stamps(rest)[v] <= Stamps(rest)[k];
  }

  lemma BatchWasDue<C(!new)>(size: C -> nat, before: map<Key, Entry<C>>, prior: set<Key>, batch: set<Key>)
    requires |before - prior| > MAX_ENTRIES || Sum(size, before - prior) > MAX_TOTAL_BYTES
    requires OldestBatch(Stamps(before - prior), EVICT_BATCH, batch)
    ensures LastBatch(size, before, prior, prior + batch)
  {
    assert batch <= (before - prior).Keys;
    assert prior + batch - prior == batch;
  }

  lemma DropTwice<C>(entries: map<Key, Entry<C>>, a: set<Key>, b: set<Key>)
    ensures entries - (a + b) == entries - a - b
  {
  }

  lemma BatchShrinks<C(!new)>(entries: map<Key, Entry<C>>, batch: set<Key>)
    requires OldestBatch(Stamps(entries), EVICT_BATCH, batch)
    ensures var m := |entries - batch|; (|entries| > 0 ==> m < |entries|) && (m == 0 || m + EVICT_BATCH == |entries|)
  {
    ValuesDrop(entries, batch);
  }

  /** Reserving, evicting and writing the reservation again is dropping first and reserving then. */
  lemma ReservedLate<C>(s: Store<C>, key: Key, victims: set<Key>)
    ensures var tomb := Tomb(s.lastGeneration + 1);
            Step(Step(s, Drop(victims + {key})), Read(key))
            == Store(((s.slots - {key})[key := tomb] - victims)[key := tomb], s.lastGeneration + 1)
  {
    var tomb := Tomb(s.lastGeneration + 1);
    assert ((s.slots - {key})[key := tomb] - victims)[key := tomb] == (s.slots - (victims + {key}))[key := tomb];
  }

  lemma ReadPresent<C>(s: Store<C>, key: Key)
    requires key in s.slots
    ensures Step(Step(s, Drop({})), Read(key)) == s
  {
    assert s.slots - {} == s.slots;
  }
}
