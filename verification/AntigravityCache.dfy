/** The in-process Antigravity replay cache: a map of timestamped, revisioned entries with
    expiry and eviction.  Each operation is proved to be a short run of the branch machine. */
module AntigravityCache {
  import opened Bytes
  import opened ReplayItems
  import opened BranchMachine
  import opened Eviction
  import opened TimedMap

  const MAX_ITEMS_PER_ENTRY: nat := 4096
  const MAX_BYTES_PER_ENTRY: nat := 0x100_0000

  type Entry = Timed<Cell>

  /** The opaque snapshot type of the package.  The zero value is the one Get returns for an empty key. */
  datatype ReplaySnapshot = ReplaySnapshot(items: Items, loaded: bool, found: bool, revision: nat, branch: nat, evictionEpoch: nat)

  const NO_SNAPSHOT := ReplaySnapshot([], false, false, 0, 0, 0)

  /** The part of a snapshot the protocol depends on; a snapshot of nothing has no revision. */
  function Core(sn: ReplaySnapshot): Snapshot {
    Snapshot(if sn.found then sn.revision else 0, sn.branch, sn.items)
  }

  /** What normalizing a chain yields: the normalizable items, unless there are too many, too large or none. */
  function Normalized(normalize: ItemNormalizer, items: Items): Option<Items> {
    var kept := Kept(normalize, items);
    if |items| > MAX_ITEMS_PER_ENTRY || TotalBytes(kept) > MAX_BYTES_PER_ENTRY || kept == [] then None else Some(kept)
  }

  method NormalizeItems(normalize: ItemNormalizer, items: Items) returns (normalized: Items, ok: bool)
    ensures ok <==> Normalized(normalize, items).Some?
    ensures ok ==> normalized == Normalized(normalize, items).value
  {
    normalized, ok := [], false;
    if |items| > MAX_ITEMS_PER_ENTRY {
      return;
    }
    var totalBytes := 0;
    for i := 0 to |items|
      invariant normalized == Kept(normalize, items[..i]) && totalBytes == TotalBytes(normalized) <= MAX_BYTES_PER_ENTRY
    {
      KeptSnoc(normalize, items, i);
      KeptPrefix(normalize, items, i + 1);
      var normalizedItem := normalize(items[i]);
      if normalizedItem.Some? {
        totalBytes := totalBytes + |normalizedItem.value|;
        if totalBytes > MAX_BYTES_PER_ENTRY {
          return;
        }
        normalized := normalized + [normalizedItem.value];
      }
    }
    assert items[..|items|] == items;
    ok := |normalized| > 0;
  }

  /** A chain that normalizing leaves as it is. */
  predicate Normal(normalize: ItemNormalizer, items: Items) {
    Normalized(normalize, items) == Some(items)
  }

  /** Normalizing a normal form again changes nothing. */
  ghost predicate Idempotent(normalize: ItemNormalizer) {
    forall item :: normalize(item).Some? ==> normalize(normalize(item).value) == normalize(item)
  }

  /** What normalizing yields is normal. */
  lemma NormalizedIsNormal(normalize: ItemNormalizer, items: Items)
    requires Idempotent(normalize) && Normalized(normalize, items).Some?
    ensures Normal(normalize, Normalized(normalize, items).value)
  {
    KeptAgain(normalize, items);
  }

  lemma {:induction false} KeptAgain(normalize: ItemNormalizer, items: Items)
    requires Idempotent(normalize)
    ensures var kept := Kept(normalize, items); |kept| <= |items| && Kept(normalize, kept) == kept
  {
    if items != [] {
      var front, last := items[..|items| - 1], normalize(items[|items| - 1]);
      KeptAgain(normalize, front);
      var kept := Kept(normalize, front);
      if last.Some? {
        assert (kept + [last.value])[..|kept|] == kept;
        assert Kept(normalize, kept + [last.value]) == kept + [last.value];
      } else {
        assert kept + [] == kept;
      }
    }
  }

  /** antigravityReasoningReplayItemsPrefix */
  method ItemsPrefix(prefix: Items, items: Items) returns (isPrefix: bool)
    ensures isPrefix <==> prefix <= items
  {
    if |prefix| > |items| {
      return false;
    }
    for index := 0 to |prefix|
      invariant prefix[..index] == items[..index]
    {
      if prefix[index] != items[index] {
        return false;
      }
    }
    isPrefix := true;
  }

  /** What every loaded snapshot that Get handed out for a key satisfies, then and ever after. */
  ghost predicate FromGet(w: World, key: Key, sn: ReplaySnapshot) {
    sn.loaded && sn.found && (key, Core(sn)) in w.issued
  }

  /** The event an unconditional store of these items amounts to, if any. */
  function Overwritten(normalize: ItemNormalizer, key: Key, items: Items): Option<Event> {
    var normalized := Normalized(normalize, items);
    if normalized.Some? then Some(Overwrite(key, normalized.value)) else None
  }

  /** Making room, and what it leaves: one oldest batch goes once the cache is over its limit. */
  ghost predicate Room(entries: map<Key, Entry>, after: map<Key, Entry>, drops: seq<Event>) {
    if |entries| <= MAX_ENTRIES then drops == [] && after == entries
    else |drops| == 1 && drops[0].Drop? && MadeRoom(entries, drops[0].keys) && after == entries - drops[0].keys
  }

  /** An operation took effect as one event that stored one entry, followed by making room, or not at all. */
  ghost predicate Landed(before: map<Key, Entry>, after: map<Key, Entry>, e: Option<Event>, key: Key, entry: Entry,
                         ok: bool, trace: seq<Event>)
  {
    && (ok <==> e.Some?)
    && if ok then trace != [] && trace[0] == e.value && Room(before[key := entry], after, trace[1..])
       else trace == [] && after == before
  }

  lemma LandedBy(before: map<Key, Entry>, after: map<Key, Entry>, e: Event, key: Key, entry: Entry, drops: seq<Event>)
    requires Room(before[key := entry], after, drops)
    ensures Landed(before, after, Some(e), key, entry, true, [e] + drops)
  {
    assert ([e] + drops)[1..] == drops;
  }

  /** A miss was fenced: one oldest batch went if the cache was full, and one tombstone came. */
  ghost predicate Fenced(before: map<Key, Entry>, after: map<Key, Entry>, key: Key, tombstone: Entry, drops: seq<Event>) {
    if |before| < MAX_ENTRIES then drops == [] && after == before[key := tombstone]
    else
      && |drops| == 1 && drops[0].Drop? && OldestBatch(Stamps(before), EVICT_BATCH, drops[0].keys)
      && after == (before - drops[0].keys)[key := tombstone]
  }

  /** What making space for one more leaves. */
  ghost predicate Spaced(before: map<Key, Entry>, after: map<Key, Entry>, drops: seq<Event>) {
    if |before| < MAX_ENTRIES then drops == [] && after == before
    else && |drops| == 1 && drops[0].Drop? && OldestBatch(Stamps(before), EVICT_BATCH, drops[0].keys)
         && after == before - drops[0].keys
  }

  lemma FencedBy(before: map<Key, Entry>, mid: map<Key, Entry>, key: Key, tombstone: Entry, drops: seq<Event>)
    requires Spaced(before, mid, drops)
    ensures Fenced(before, mid[key := tombstone], key, tombstone, drops)
  {
    hide OldestBatch, Stamps;
  }

  lemma CellFacts(w: World, key: Key)
    requires Inv(w) && key in w.store.cells
    ensures var c := w.store.cells[key];
            0 < c.branch <= w.store.lastBranch && 0 < c.revision <= w.store.lastRevision && (c.deleted <==> c.items == [])
  {
  }

  /** One event first, the rest after it. */
  lemma ReachedBehind(from: World, e: Event, mid: World, drops: seq<Event>, to: World)
    requires Inv(from) && Legal(from, e) && mid == Advance(from, e) && Reached(mid, drops, to)
    ensures Reached(from, [e] + drops, to)
  {
    hide Inv, Legal, Advance, Reached;
    ReachedNothing(from);
    ReachedStep(from, [], from, e);
    assert [] + [e] == [e];
    ReachedMore(from, [e], mid, drops, to);
  }

  lemma NormalizedNonEmpty(normalize: ItemNormalizer, items: Items)
    ensures Normalized(normalize, items).Some? ==> Normalized(normalize, items).value != []
  {
  }

  class ReplayCache {
    const normalize: ItemNormalizer
    var entries: map<Key, Entry>
    var nextRevision: nat
    var evictionEpoch: nat
    var generations: nat   // branch names drawn so far
    ghost var world: World   // the same store as the machine sees it, with every snapshot handed out

    ghost function Abstract(): Store
      reads this
    {
      Store(Values(entries), nextRevision, generations)
    }

    ghost predicate Sound()
      reads this
    {
      world.store == Abstract() && Inv(world)
    }

    ghost predicate Valid()
      reads this
    {
      Sound() && |entries| <= MAX_ENTRIES
    }

    constructor (normalize: ItemNormalizer)
      ensures Valid() && world == World(EMPTY, {}) && this.normalize == normalize && entries == map[] && evictionEpoch == 0
    {
      this.normalize := normalize;
      entries, nextRevision, evictionEpoch, generations := map[], 0, 0, 0;
      world := World(EMPTY, {});
    }

    /** The change just made is this step of the machine. */
    ghost method Record(e: Event)
      requires Inv(world) && Legal(world, e) && Abstract() == Step(world.store, e)
      modifies this`world
      ensures Sound() && world == Advance(old(world), e)
    {
      hide Inv, Legal, Step, Values;
      StepKeepsInv(world, e);
      world := Advance(world, e);
    }

    /** newAntigravityReasoningReplayGeneration: a name never drawn before. */
    method NewGeneration() returns (branch: nat)
      modifies this`generations
      ensures branch == old(generations) + 1 && generations == branch
    {
      generations := generations + 1;
      branch := generations;
    }

    method RemoveAll(keys: seq<Key>)
      modifies this`entries, this`evictionEpoch
      ensures entries == old(entries) - SetOf(keys) && evictionEpoch == old(evictionEpoch) + |keys|
    {
      hide SetOf;
      ghost var before := entries;
      SetOfNone<Key>();
      for i := 0 to |keys|
        invariant entries == before - SetOf(keys[..i]) && evictionEpoch == old(evictionEpoch) + i
      {
        SetOfNext(keys, i);
        evictionEpoch := evictionEpoch + 1;
        entries := entries - {keys[i]};
      }
      assert keys[..|keys|] == keys;
    }

    /** evictOldestAntigravityReasoningReplayEntries */
    method Evict(count: nat) returns (ghost victims: set<Key>)
      requires Sound()
      modifies this`entries, this`evictionEpoch, this`world
      ensures Sound() && world == Advance(old(world), Drop(victims)) && entries == old(entries) - victims
      ensures OldestBatch(Stamps(old(entries)), count, victims)
      ensures |entries| == |old(entries)| - |victims| && evictionEpoch == old(evictionEpoch) + |victims|
    {
      hide Values, Inv, OldestBatch, Stamps;
      var candidates := OldestKeys(Stamps(entries), count);
      victims := SetOf(candidates);
      BatchWithin(entries, count, victims);
      ValuesDrop(entries, victims);
      RemoveAll(candidates);
      Record(Drop(victims));
    }

    /** Write one entry under the next revision. */
    method PutEntry(key: Key, items: Items, now: int, branch: nat, deleted: bool)
      modifies this`entries, this`nextRevision
      ensures nextRevision == old(nextRevision) + 1
      ensures entries == old(entries)[key := Timed(Cell(nextRevision, branch, deleted, items), now)]
      ensures |entries| == |old(entries).Keys + {key}| <= |old(entries)| + 1
      ensures Values(entries) == Values(old(entries))[key := Cell(nextRevision, branch, deleted, items)]
    {
      nextRevision := nextRevision + 1;
      ValuesPut(entries, key, Timed(Cell(nextRevision, branch, deleted, items), now));
      entries := entries[key := Timed(Cell(nextRevision, branch, deleted, items), now)];
    }

    /** The tail of every writing operation: one oldest batch goes once the cache is over its limit. */
    method EnforceLimit() returns (ghost drops: seq<Event>)
      requires Sound() && |entries| <= MAX_ENTRIES + 1
      modifies this`entries, this`evictionEpoch, this`world
      ensures Valid() && Reached(old(world), drops, world) && Room(old(entries), entries, drops)
      ensures evictionEpoch + |entries| == old(evictionEpoch) + |old(entries)|
    {
      hide Inv, Values, OldestBatch, Reached, LegalRun, Play, Stamps;
      drops := [];
      ReachedNothing(world);
      if |entries| > MAX_ENTRIES {
        ghost var before := world;
        ghost var victims := Evict(EVICT_BATCH);
        BatchWithin(old(entries), EVICT_BATCH, victims);
        ReachedStep(before, [], before, Drop(victims));
        assert [] + [Drop(victims)] == [Drop(victims)];
        drops := [Drop(victims)];
      }
    }

    /** The head of a reservation: one oldest batch goes if the cache is full. */
    method MakeSpace() returns (ghost drops: seq<Event>)
      requires Valid()
      modifies this`entries, this`evictionEpoch, this`world
      ensures Valid() && |entries| < MAX_ENTRIES && Reached(old(world), drops, world)
      ensures evictionEpoch + |entries| == old(evictionEpoch) + |old(entries)|
      ensures Spaced(old(entries), entries, drops) && entries.Keys <= old(entries).Keys
    {
      hide Inv, Values, Reached, OldestBatch, Stamps;
      drops := [];
      ghost var before := world;
      ReachedNothing(before);
      if |entries| >= MAX_ENTRIES {
        ghost var victims := Evict(EVICT_BATCH);
        BatchWithin(old(entries), EVICT_BATCH, victims);
        ReachedStep(before, [], before, Drop(victims));
        assert [] + [Drop(victims)] == [Drop(victims)];
        drops := [Drop(victims)];
      }
    }

    /** Record one stored entry and make room. */
    method Settle(ghost e: Event, ghost was: map<Key, Entry>, key: Key) returns (ghost trace: seq<Event>)
      requires Inv(world) && Legal(world, e) && Abstract() == Step(world.store, e) && |entries| <= MAX_ENTRIES + 1
      requires key in entries && entries == was[key := entries[key]]
      modifies this`entries, this`evictionEpoch, this`world
      ensures Valid() && Reached(old(world), trace, world)
      ensures Landed(was, entries, Some(e), key, old(entries)[key], true, trace)
      ensures evictionEpoch + |entries| == old(evictionEpoch) + |old(entries)|
    {
      hide Values, Inv, Reached, Room, Legal, Step;
      ghost var before := world;
      Record(e);
      ghost var drops := EnforceLimit();
      ReachedBehind(before, e, Advance(before, e), drops, world);
      trace := [e] + drops;
      LandedBy(was, entries, e, key, old(entries)[key], drops);
    }

    /** CacheAntigravityReasoningReplayItemsBestEffort: an unconditional overwrite. */
    method CacheItems(key: Key, items: Items, now: int) returns (ok: bool, ghost trace: seq<Event>)
      requires Valid()
      modifies this
      ensures Valid() && Reached(old(world), trace, world)
      ensures var e := if key == "" then None else Overwritten(normalize, key, items);
              var normalized := if e.Some? then e.value.items else [];
              var entry := Timed(Cell(old(nextRevision) + 1, old(generations) + 1, false, normalized), now);
              Landed(old(entries), entries, e, key, entry, ok, trace)
      ensures evictionEpoch + |entries| == old(evictionEpoch) + |if ok then old(entries).Keys + {key} else old(entries).Keys|
    {
      hide Values, Inv, Reached, Normalized, Room;
      ok, trace := false, [];
      ReachedNothing(world);
      if key == "" {
        return;
      }
      var normalized, okNormalize := NormalizeItems(normalize, items);
      if !okNormalize {
        return;
      }
      NormalizedNonEmpty(normalize, items);
      ghost var was := entries;
      var branch := NewGeneration();
      PutEntry(key, normalized, now, branch, false);
      trace := Settle(Overwrite(key, normalized), was, key);
      ok := true;
    }

    /** reserveAntigravityReasoningReplayAbsentLocked: fence a miss with a tombstone. */
    method ReserveAbsent(key: Key, now: int) returns (snapshot: ReplaySnapshot, ghost drops: seq<Event>)
      requires Valid() && key !in entries
      modifies this
      ensures Valid() && Reached(old(world), drops + [Read(key)], world)
      ensures FromGet(world, key, snapshot) && key in world.store.cells
      ensures Core(snapshot) == SnapshotOf(world.store, key) && snapshot.items == [] && world.store.cells[key].deleted
      ensures snapshot.evictionEpoch == evictionEpoch
      ensures Fenced(old(entries), entries, key, Timed(Cell(old(nextRevision) + 1, old(generations) + 1, true, []), now), drops)
      ensures evictionEpoch + |entries| == old(evictionEpoch) + |old(entries)| + 1
    {
      hide Inv, Values, Reached, OldestBatch, Stamps, Spaced, Fenced;
      ghost var before, was := world, entries;
      drops := MakeSpace();
      ghost var mid := world;
      FencedBy(was, entries, key, Timed(Cell(old(nextRevision) + 1, old(generations) + 1, true, []), now), drops);
      snapshot := Fence(key, now);
      ReachedStep(before, drops, mid, Read(key));
    }

    /** The rest of it: the tombstone, and the snapshot of it. */
    method Fence(key: Key, now: int) returns (snapshot: ReplaySnapshot)
      requires Valid() && key !in entries && |entries| < MAX_ENTRIES
      modifies this`entries, this`nextRevision, this`generations, this`world
      ensures Valid() && Inv(old(world)) && Legal(old(world), Read(key)) && world == Advance(old(world), Read(key))
      ensures FromGet(world, key, snapshot) && key in world.store.cells
      ensures Core(snapshot) == SnapshotOf(world.store, key) && snapshot.items == [] && world.store.cells[key].deleted
      ensures snapshot.evictionEpoch == evictionEpoch && |entries| == |old(entries)| + 1
      ensures entries == old(entries)[key := Timed(Cell(old(nextRevision) + 1, old(generations) + 1, true, []), now)]
    {
      hide Inv, Values;
      ValuesKeys(entries);
      var branch := NewGeneration();
      PutEntry(key, [], now, branch, true);
      Record(Read(key));
      snapshot := ReplaySnapshot([], true, true, entries[key].value.revision, entries[key].value.branch, evictionEpoch);
    }

    /** GetAntigravityReasoningReplayItemsWithSnapshotRequired, in-process form. */
    method Get(key: Key, now: int) returns (items: Items, snapshot: ReplaySnapshot, found: bool, ghost drops: seq<Event>)
      requires Valid()
      modifies this
      ensures Valid()
      ensures key == "" ==>
                && !found && items == [] && !snapshot.loaded && !snapshot.found && snapshot.items == [] && drops == []
                && world == old(world) && entries == old(entries) && evictionEpoch == old(evictionEpoch)
      ensures key != "" ==>
                && Reached(old(world), drops + [Read(key)], world) && key in world.store.cells
                && FromGet(world, key, snapshot) && Core(snapshot) == SnapshotOf(world.store, key)
                && items == snapshot.items && (found <==> !world.store.cells[key].deleted)
                && snapshot.evictionEpoch == evictionEpoch
      ensures key != "" && key in old(entries) && now - old(entries)[key].timestamp <= TTL ==>
                && drops == [] && entries == old(entries)[key := old(entries)[key].(timestamp := now)]
                && evictionEpoch == old(evictionEpoch)
      ensures var tombstone := Timed(Cell(old(nextRevision) + 1, old(generations) + 1, true, []), now);
              && (key != "" && key !in old(entries) ==> Fenced(old(entries), entries, key, tombstone, drops))
              && (key != "" && key in old(entries) && now - old(entries)[key].timestamp > TTL ==>
                    drops != [] && drops[0] == Drop({key})
                    && Fenced(old(entries) - {key}, entries, key, tombstone, drops[1..]))
      ensures key != "" && (key !in old(entries) || now - old(entries)[key].timestamp > TTL) ==>
                evictionEpoch + |entries| == old(evictionEpoch) + |old(entries)| + 1
    {
      hide Inv, Values, Reached, OldestBatch, Stamps, Fenced;
      items, snapshot, found, drops := [], NO_SNAPSHOT, false, [];
      if key == "" {
        return;
      }
      ghost var before := world;
      ReachedNothing(before);
      if key !in entries {
        snapshot, drops := ReserveAbsent(key, now);
        return;
      }
      var entry := entries[key];
      if now - entry.timestamp > TTL {
        evictionEpoch := evictionEpoch + 1;
        ValuesDrop(entries, {key});
        entries := entries - {key};
        Record(Drop({key}));
        ghost var mid, more := world, [];
        snapshot, more := ReserveAbsent(key, now);
        ReachedBehind(before, Drop({key}), mid, more + [Read(key)], world);
        drops := [Drop({key})] + more;
        assert drops[1..] == more;
        assert [Drop({key})] + (more + [Read(key)]) == drops + [Read(key)];
        return;
      }
      ValuesTouch(entries, key, now);
      ValueAt(entries, key);
      entries := entries[key := entry.(timestamp := now)];
      Record(Read(key));
      ReachedStep(before, [], before, Read(key));
      CellFacts(world, key);
      snapshot := ReplaySnapshot([], true, true, entry.value.revision, entry.value.branch, evictionEpoch);
      if entry.value.deleted || |entry.value.items| == 0 {
        return;
      }
      snapshot := snapshot.(items := entry.value.items);
      items, found := entry.value.items, true;
    }

    /** ReplaceAntigravityReasoningReplayItemsIfUnchanged, in-process form.  Snapshots are opaque, so a loaded
        one is one that Get returned. */
    method Replace(key: Key, snapshot: ReplaySnapshot, items: Items, now: int)
      returns (ok: bool, invalid: bool, ghost trace: seq<Event>)
      requires Valid() && (snapshot.loaded ==> FromGet(world, key, snapshot))
      modifies this
      ensures Valid() && Reached(old(world), trace, world)
      ensures invalid <==> key != "" && Normalized(normalize, items).None?
      ensures key == "" || invalid ==> !ok && trace == [] && entries == old(entries)
      ensures key != "" && !invalid && !snapshot.loaded ==>
                var e := Overwritten(normalize, key, Normalized(normalize, items).value);
                var entry := Timed(Cell(old(nextRevision) + 1, old(generations) + 1, false,
                                        if e.Some? then e.value.items else []), now);
                Landed(old(entries), entries, e, key, entry, ok, trace)
      ensures key != "" && !invalid && snapshot.loaded ==>
                var normalized := Normalized(normalize, items).value;
                var branch := PublishBranch(old(world).store, key, Core(snapshot), normalized);
                && (ok <==> PublishAllowed(old(world).store, key, Core(snapshot), normalized))
                && Landed(old(entries), entries, if ok then Some(Publish(key, Core(snapshot), normalized)) else None, key,
                          Timed(Cell(old(nextRevision) + 1, branch, false, normalized), now), ok, trace)
      ensures evictionEpoch + |entries| == old(evictionEpoch) + |if ok then old(entries).Keys + {key} else old(entries).Keys|
    {
      hide Values, Inv, Reached, Normalized, Room;
      ok, invalid, trace := false, false, [];
      ReachedNothing(world);
      if key == "" {
        return;
      }
      var normalized, okNormalize := NormalizeItems(normalize, items);
      if !okNormalize {
        return false, true, [];
      }
      if !snapshot.loaded {
        ok, trace := CacheItems(key, normalized, now);
        return;
      }
      NormalizedNonEmpty(normalize, items);
      ok, trace := ReplaceLoaded(key, snapshot, normalized, now);
    }

    /** The loaded arm of the replacement, for normalized items. */
    method ReplaceLoaded(key: Key, snapshot: ReplaySnapshot, normalized: Items, now: int) returns (ok: bool, ghost trace: seq<Event>)
      requires Valid() && snapshot.loaded && FromGet(world, key, snapshot) && normalized != []
      modifies this
      ensures Valid() && Reached(old(world), trace, world)
      ensures ok <==> PublishAllowed(old(world).store, key, Core(snapshot), normalized)
      ensures var branch := PublishBranch(old(world).store, key, Core(snapshot), normalized);
              Landed(old(entries), entries, if ok then Some(Publish(key, Core(snapshot), normalized)) else None, key,
                     Timed(Cell(old(nextRevision) + 1, branch, false, normalized), now), ok, trace)
      ensures evictionEpoch + |entries| == old(evictionEpoch) + |if ok then old(entries).Keys + {key} else old(entries).Keys|
    {
      hide Values, Inv, Reached, Normalized, Room;
      ok, trace := false, [];
      ReachedNothing(world);
      var found := key in entries;
      var matchesSnapshot := found == snapshot.found
        && ((found && entries[key].value.revision == snapshot.revision) || (!found && snapshot.evictionEpoch == evictionEpoch));
      var isDescendant := false;
      if found && !entries[key].value.deleted && snapshot.branch != 0 && entries[key].value.branch == snapshot.branch {
        isDescendant := ItemsPrefix(entries[key].value.items, normalized);
      }
      ValuesKeys(entries);
      if found {
        ValueAt(entries, key);
      }
      if !matchesSnapshot && !isDescendant {
        return;
      }
      CellFacts(world, key);
      IssuedFacts(world, key, Core(snapshot));
      var branch := snapshot.branch;
      var continues := ItemsPrefix(snapshot.items, normalized);
      if branch == 0 || (matchesSnapshot && !continues) {
        branch := NewGeneration();
      }
      ghost var was := entries;
      PutEntry(key, normalized, now, branch, false);
      trace := Settle(Publish(key, Core(snapshot), normalized), was, key);
      ok := true;
    }

    /** DeleteAntigravityReasoningReplayItemsIfUnchanged, in-process form, for snapshots Get returned. */
    method DeleteIfUnchanged(key: Key, snapshot: ReplaySnapshot, now: int) returns (ok: bool, ghost trace: seq<Event>)
      requires Valid() && (snapshot.loaded ==> FromGet(world, key, snapshot))
      modifies this
      ensures Valid() && Reached(old(world), trace, world)
      ensures key == "" ==> !ok && trace == [] && entries == old(entries)
      ensures evictionEpoch + |entries| == old(evictionEpoch) + |if ok then old(entries).Keys + {key} else old(entries).Keys|
      ensures key != "" ==>
                var entry := Timed(Cell(old(nextRevision) + 1, old(generations) + 1, true, []), now);
                var e := if !snapshot.loaded then Some(Bury(key)) else if ok then Some(DeleteIf(key, Core(snapshot))) else None;
                && (ok <==> snapshot.loaded ==> Matches(old(world).store, key, Core(snapshot)))
                && Landed(old(entries), entries, e, key, entry, ok, trace)
    {
      hide Values, Inv, Reached, Room;
      ok, trace := false, [];
      ReachedNothing(world);
      if key == "" {
        return;
      }
      if !snapshot.loaded {
        trace := Delete(key, now);
        return true, trace;
      }
      var found := key in entries;
      ValuesKeys(entries);
      if found {
        ValueAt(entries, key);
      }
      if found != snapshot.found || (found && entries[key].value.revision != snapshot.revision)
         || (!found && snapshot.evictionEpoch != evictionEpoch) {
        return;
      }
      ghost var was := entries;
      var branch := NewGeneration();
      PutEntry(key, [], now, branch, true);
      trace := Settle(DeleteIf(key, Core(snapshot)), was, key);
      ok := true;
    }

    /** DeleteAntigravityReasoningReplayItemRequired, in-process form. */
    method Delete(key: Key, now: int) returns (ghost trace: seq<Event>)
      requires Valid()
      modifies this
      ensures Valid() && Reached(old(world), trace, world)
      ensures if key == "" then trace == [] && entries == old(entries)
              else Landed(old(entries), entries, Some(Bury(key)), key,
                          Timed(Cell(old(nextRevision) + 1, old(generations) + 1, true, []), now), true, trace)
      ensures evictionEpoch + |entries| == old(evictionEpoch) + |if key == "" then old(entries).Keys else old(entries).Keys + {key}|
    {
      hide Values, Inv, Reached, Room;
      trace := [];
      ReachedNothing(world);
      if key == "" {
        return;
      }
      ghost var was := entries;
      var branch := NewGeneration();
      PutEntry(key, [], now, branch, true);
      trace := Settle(Bury(key), was, key);
    }

    /** ClearAntigravityReasoningReplayCache */
    method Clear()
      requires Valid()
      modifies this
      ensures Valid() && entries == map[] && world == Advance(old(world), Drop(old(entries).Keys))
      ensures evictionEpoch == old(evictionEpoch) + 1
    {
      hide Inv;
      ghost var keys := entries.Keys;
      ValuesKeys(entries);
      assert Values(entries) - keys == map[];
      entries := map[];
      evictionEpoch := evictionEpoch + 1;
      Record(Drop(keys));
    }

    /** purgeExpiredAntigravityReasoningReplayCache: exactly the entries past their time to live go. */
    method PurgeExpired(now: int)
      requires Valid()
      modifies this
      ensures Valid() && world == Advance(old(world), Drop(Expired(old(entries), now)))
      ensures entries == old(entries) - Expired(old(entries), now)
      ensures evictionEpoch + |entries| == old(evictionEpoch) + |old(entries)|
    {
      hide Values, Inv, Expired;
      DropExpired(now);
      Record(Drop(Expired(old(entries), now)));
    }

    method DropExpired(now: int)
      modifies this`entries, this`evictionEpoch
      ensures entries == old(entries) - Expired(old(entries), now)
      ensures Values(entries) == Values(old(entries)) - Expired(old(entries), now) && |entries| <= |old(entries)|
      ensures evictionEpoch + |entries| == old(evictionEpoch) + |old(entries)|
    {
      hide Values, Expired, Purging;
      ghost var before := entries;
      var pending := entries.Keys;
      PurgeStart(before, now);
      while pending != {}
        invariant Purging(before, now, pending, entries)
        invariant evictionEpoch + |entries| == old(evictionEpoch) + |before|
        decreases pending
      {
        var key :| key in pending;
        PurgeStep(before, now, pending, entries, key);
        pending := pending - {key};
        if now - entries[key].timestamp > TTL {
          evictionEpoch := evictionEpoch + 1;
          entries := entries - {key};
        }
      }
      PurgeEnd(before, now, entries);
    }
  }
}
