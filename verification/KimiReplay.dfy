/** Kimi thinking replay: one session keeps the last complete content array. */
module KimiReplay {
  import opened Bytes
  import GM = GenerationMachine
  import TM = TimedMap
  import TS = ThinkingStore

  const MAX_BYTES_PER_ENTRY: nat := 0x80_0000

  predicate ValidContent(valid: bytes -> bool, content: bytes) {
    0 < |content| <= MAX_BYTES_PER_ENTRY && valid(content)
  }

  method NewStore() returns (store: TS.ThinkingStore<bytes>)
    ensures fresh(store) && store.Valid() && store.world == GM.World(GM.Store(map[], 0), {})
    ensures forall content :: store.size(content) == |content|
  {
    store := new TS.ThinkingStore((content: bytes) => |content|);
  }

  /** CacheKimiThinkingReplayBestEffort, in-process form. */
  method Cache(store: TS.ThinkingStore<bytes>, valid: bytes -> bool, key: GM.Key, content: bytes, now: int)
    returns (ok: bool, ghost dropped: set<GM.Key>)
    requires store.Valid()
    modifies store
    ensures store.Valid()
    ensures ok <==> key != "" && content != [] && |content| <= MAX_BYTES_PER_ENTRY && valid(content)
    ensures store.world == if ok then GM.Play(old(store.world), [GM.Overwrite(key, content), GM.Drop(dropped)])
                           else old(store.world)
    ensures ok ==>
              var entry := TM.Timed(GM.Live(old(store.generations) + 1, content), now);
              TS.Stored(store.size, old(store.entries), store.entries, key, entry, dropped)
    ensures !ok ==> store.entries == old(store.entries)
  {
    hide GM.Inv, GM.Play, TS.Stored;
    ok, dropped := false, {};
    if key == "" || !ValidContent(valid, content) {
      return;
    }
    dropped := store.Overwrite(key, content, now);
    ok := true;
  }

  /** ReplaceKimiThinkingReplayIfUnchanged, in-process form, for a snapshot Get returned. */
  method ReplaceIfUnchanged(store: TS.ThinkingStore<bytes>, valid: bytes -> bool,
                            key: GM.Key, snapshot: TS.Snapshot, content: bytes, now: int)
    returns (ok: bool, ghost dropped: set<GM.Key>)
    requires store.Valid() && (snapshot.loaded ==> snapshot.found)
    modifies store
    ensures store.Valid()
    ensures key == "" || content == [] || |content| > MAX_BYTES_PER_ENTRY || !valid(content) ==> !ok
    ensures key != "" && 0 < |content| <= MAX_BYTES_PER_ENTRY && valid(content) && !snapshot.loaded ==>
              ok && store.world == GM.Play(old(store.world), [GM.Overwrite(key, content), GM.Drop(dropped)])
    ensures key != "" && 0 < |content| <= MAX_BYTES_PER_ENTRY && valid(content) && snapshot.loaded ==>
              (ok <==> GM.Matches(old(store.world).store, key, snapshot.generation))
    ensures ok && snapshot.loaded ==>
              store.world == GM.Play(old(store.world), [GM.Publish(key, snapshot.generation, content), GM.Drop(dropped)])
    ensures ok ==>
              var entry := TM.Timed(GM.Live(old(store.generations) + 1, content), now);
              TS.Stored(store.size, old(store.entries), store.entries, key, entry, dropped)
    ensures !ok ==> store.entries == old(store.entries)
    ensures !ok ==> store.world == old(store.world)
  {
    hide TS.Sum, TM.Values, GM.Inv, GM.Play, TS.Stored;
    ok, dropped := false, {};
    if key == "" || !ValidContent(valid, content) {
      return;
    }
    if !snapshot.loaded {
      ok, dropped := Cache(store, valid, key, content, now);
      return;
    }
    TM.ValuesKeys(store.entries);
    if key in store.entries {
      TM.ValueAt(store.entries, key);
    }
    if !store.Unchanged(key, snapshot) {
      return;
    }
    dropped := store.PublishContent(key, snapshot, content, now);
    ok := true;
  }
}
