/** Claude thinking replay: one session keeps a list of signed assistant turns, within a turn and a byte bound. */
module ClaudeReplay {
  import opened Bytes
  import GM = GenerationMachine
  import TM = TimedMap
  import TS = ThinkingStore

  const MAX_BYTES_PER_SESSION: nat := 0x80_0000
  const MAX_TURNS_PER_SESSION: nat := 64

  type Turns = seq<bytes>

  /** JSON is a parameter: which contents are valid arrays, and when two are the same after canonicalization. */
  datatype Json = Json(valid: bytes -> bool, same: (bytes, bytes) -> bool)

  predicate ValidContent(json: Json, content: bytes) {
    0 < |content| <= MAX_BYTES_PER_SESSION && json.valid(content)
  }

  function TurnBytes(turns: Turns): nat {
    if turns == [] then 0 else TurnBytes(turns[..|turns| - 1]) + |turns[|turns| - 1]|
  }

  predicate Fits(turns: Turns) {
    |turns| <= MAX_TURNS_PER_SESSION && TurnBytes(turns) <= MAX_BYTES_PER_SESSION
  }

  predicate Duplicate(json: Json, turns: Turns, content: bytes) {
    exists i :: 0 <= i < |turns| && json.same(turns[i], content)
  }

  /** The first suffix, counting from the front, that fits. */
  function Trimmed(turns: Turns): Turns {
    if turns == [] || Fits(turns) then turns else Trimmed(turns[1..])
  }

  function Appended(json: Json, turns: Turns, content: bytes): Turns {
    if Duplicate(json, turns, content) then turns else Trimmed(turns + [content])
  }

  /** Trimming keeps a suffix that fits, and no longer suffix does. */
  lemma {:induction false} TrimmedIsLongest(turns: Turns) returns (cut: nat)
    ensures cut <= |turns| && Trimmed(turns) == turns[cut..] && Fits(Trimmed(turns))
    ensures forall j :: 0 <= j < cut ==> !Fits(turns[j..])
  {
    if turns == [] || Fits(turns) {
      return 0;
    }
    var rest := TrimmedIsLongest(turns[1..]);
    assert turns[1..][rest..] == turns[rest + 1..];
    forall j | 0 <= j < rest + 1 ensures !Fits(turns[j..]) {
      if j == 0 {
        assert turns[0..] == turns;
      } else {
        assert turns[1..][j - 1..] == turns[j..];
      }
    }
    return rest + 1;
  }

  lemma TurnBytesOne(content: bytes)
    ensures TurnBytes([content]) == |content|
  {
    assert [content][..0] == [];
  }

  /** A new valid turn is always last in its session's list; a list that fits stays a list that fits; and
      nothing is trimmed that did not have to be. */
  lemma NewTurnIsLast(json: Json, turns: Turns, content: bytes)
    requires ValidContent(json, content) && Fits(turns)
    ensures var after := Appended(json, turns, content);
            && Fits(after) && after != []
            && (if Duplicate(json, turns, content) then after == turns else after[|after| - 1] == content)
            && (!Duplicate(json, turns, content) && Fits(turns + [content]) ==> after == turns + [content])
  {
    if !Duplicate(json, turns, content) {
      var all := turns + [content];
      var cut := TrimmedIsLongest(all);
      assert all[|turns|..] == [content];
      TurnBytesOne(content);
      assert cut <= |turns|;
    }
  }

  /** Appending the same turn again changes nothing. */
  lemma AppendTwice(json: Json, turns: Turns, content: bytes)
    requires ValidContent(json, content) && Fits(turns) && json.same(content, content)
    ensures Appended(json, Appended(json, turns, content), content) == Appended(json, turns, content)
  {
    NewTurnIsLast(json, turns, content);
    var after := Appended(json, turns, content);
    if !Duplicate(json, turns, content) {
      assert json.same(after[|after| - 1], content);
    }
  }

  lemma TurnBytesSnoc(turns: Turns, i: nat)
    requires i < |turns|
    ensures TurnBytes(turns[..i + 1]) == TurnBytes(turns[..i]) + |turns[i]|
  {
    assert turns[..i + 1][..i] == turns[..i];
  }

  /** claudeThinkingReplayEntryBytes */
  method EntryBytes(turns: Turns) returns (total: nat)
    ensures total == TurnBytes(turns)
  {
    total := 0;
    for i := 0 to |turns|
      invariant total == TurnBytes(turns[..i])
    {
      TurnBytesSnoc(turns, i);
      total := total + |turns[i]|;
    }
    assert turns[..|turns|] == turns;
  }

  /** appendClaudeThinkingReplayContent */
  method Append(json: Json, turns: Turns, content: bytes) returns (cloned: Turns)
    ensures cloned == Appended(json, turns, content)
  {
    cloned := turns;
    for i := 0 to |cloned|
      invariant cloned == turns && forall k :: 0 <= k < i ==> !json.same(turns[k], content)
    {
      if json.same(cloned[i], content) {
        return;
      }
    }
    cloned := cloned + [content];
    while true
      invariant Trimmed(cloned) == Trimmed(turns + [content])
      decreases |cloned|
    {
      var total := EntryBytes(cloned);
      if |cloned| <= MAX_TURNS_PER_SESSION && total <= MAX_BYTES_PER_SESSION {
        break;
      }
      if |cloned| == 0 {
        break;
      }
      cloned := cloned[1..];
    }
  }

  /** Every stored session is within its own bounds. */
  ghost predicate SessionsFit(s: GM.Store<Turns>) {
    forall k :: k in s.slots && s.slots[k].Live? ==> Fits(s.slots[k].content)
  }

  /** No step breaks the bounds of a session unless it brings content that does. */
  lemma StepKeepsSessionsFit(s: GM.Store<Turns>, e: GM.Event<Turns>)
    requires SessionsFit(s)
    requires match e case Overwrite(_, turns) => Fits(turns) case Publish(_, _, turns) => Fits(turns) case _ => true
    ensures SessionsFit(GM.Step(s, e))
  {
  }

  lemma TwoStepsFit(w: GM.World<Turns>, e: GM.Event<Turns>, dropped: set<GM.Key>)
    requires SessionsFit(w.store)
    requires match e case Overwrite(_, turns) => Fits(turns) case Publish(_, _, turns) => Fits(turns) case _ => true
    ensures SessionsFit(GM.Play(w, [e, GM.Drop(dropped)]).store)
  {
    hide SessionsFit, Fits, GM.Play;
    GM.PlayTwo(w, e, GM.Drop(dropped));
    StepKeepsSessionsFit(w.store, e);
    StepKeepsSessionsFit(GM.Step(w.store, e), GM.Drop(dropped));
  }

  lemma SessionFits(s: GM.Store<Turns>, key: GM.Key)
    requires SessionsFit(s) && key in s.slots
    ensures Fits(if s.slots[key].Live? then s.slots[key].content else [])
  {
  }

  method NewStore() returns (store: TS.ThinkingStore<Turns>)
    ensures fresh(store) && store.Valid() && store.world == GM.World(GM.Store(map[], 0), {}) && SessionsFit(store.world.store)
    ensures forall turns :: store.size(turns) == TurnBytes(turns)
  {
    store := new TS.ThinkingStore(TurnBytes);
  }

  /** CacheClaudeThinkingReplayBestEffort, in-process form. */
  method Cache(store: TS.ThinkingStore<Turns>, json: Json, key: GM.Key, content: bytes, now: int)
    returns (ok: bool, ghost dropped: set<GM.Key>)
    requires store.Valid() && SessionsFit(store.world.store)
    modifies store
    ensures store.Valid() && SessionsFit(store.world.store)
    ensures ok <==> key != "" && content != [] && |content| <= MAX_BYTES_PER_SESSION && json.valid(content)
    ensures store.world == if ok then GM.Play(old(store.world), [GM.Overwrite(key, [content]), GM.Drop(dropped)])
                           else old(store.world)
    ensures ok ==>
              var entry := TM.Timed(GM.Live(old(store.generations) + 1, [content]), now);
              TS.Stored(store.size, old(store.entries), store.entries, key, entry, dropped)
    ensures !ok ==> store.entries == old(store.entries)
  {
    hide TurnBytes, SessionsFit, GM.Inv, GM.Play, TS.Stored;
    ok, dropped := false, {};
    if key == "" || !ValidContent(json, content) {
      return;
    }
    TurnBytesOne(content);
    ghost var was := store.world;
    dropped := store.Overwrite(key, [content], now);
    TwoStepsFit(was, GM.Overwrite(key, [content]), dropped);
    ok := true;
  }

  /** ReplaceClaudeThinkingReplayIfUnchanged, in-process form, for a snapshot Get returned. */
  method ReplaceIfUnchanged(store: TS.ThinkingStore<Turns>, json: Json, key: GM.Key, snapshot: TS.Snapshot, content: bytes, now: int)
    returns (ok: bool, ghost dropped: set<GM.Key>)
    requires store.Valid() && SessionsFit(store.world.store) && (snapshot.loaded ==> snapshot.found)
    modifies store
    ensures store.Valid() && SessionsFit(store.world.store)
    ensures key == "" || content == [] || |content| > MAX_BYTES_PER_SESSION || !json.valid(content) ==> !ok
    ensures key != "" && 0 < |content| <= MAX_BYTES_PER_SESSION && json.valid(content) && !snapshot.loaded ==>
              ok && store.world == GM.Play(old(store.world), [GM.Overwrite(key, [content]), GM.Drop(dropped)])
    ensures key != "" && 0 < |content| <= MAX_BYTES_PER_SESSION && json.valid(content) && snapshot.loaded ==>
              (ok <==> GM.Matches(old(store.world).store, key, snapshot.generation))
    ensures ok && snapshot.loaded ==>
              && key in old(store.world).store.slots
              && var slot := old(store.world).store.slots[key];
              var turns := Appended(json, if slot.Live? then slot.content else [], content);
              store.world == GM.Play(old(store.world), [GM.Publish(key, snapshot.generation, turns), GM.Drop(dropped)])
    ensures ok && !snapshot.loaded ==>
              var entry := TM.Timed(GM.Live(old(store.generations) + 1, [content]), now);
              TS.Stored(store.size, old(store.entries), store.entries, key, entry, dropped)
    ensures ok && snapshot.loaded ==>
              && key in old(store.entries)
              && var slot := old(store.entries)[key].value;
              var turns := Appended(json, if slot.Live? then slot.content else [], content);
              var entry := TM.Timed(GM.Live(old(store.generations) + 1, turns), now);
              TS.Stored(store.size, old(store.entries), store.entries, key, entry, dropped)
    ensures !ok ==> store.world == old(store.world) && store.entries == old(store.entries)
  {
    hide TurnBytes, TS.Sum, TM.Values, Appended, SessionsFit, GM.Inv, GM.Play, TS.Stored;
    ok, dropped := false, {};
    if key == "" || !ValidContent(json, content) {
      return;
    }
    if !snapshot.loaded {
      ok, dropped := Cache(store, json, key, content, now);
      return;
    }
    TM.ValuesKeys(store.entries);
    if !store.Unchanged(key, snapshot) {
      if key in store.entries {
        TM.ValueAt(store.entries, key);
      }
      return;
    }
    TM.ValueAt(store.entries, key);
    var entry := store.entries[key];
    SessionFits(store.world.store, key);
    var turns := if entry.value.Live? then entry.value.content else [];
    NewTurnIsLast(json, turns, content);
    var contents := Append(json, turns, content);
    ghost var was := store.world;
    dropped := store.PublishContent(key, snapshot, contents, now);
    TwoStepsFit(was, GM.Publish(key, snapshot.generation, contents), dropped);
    ok := true;
  }

  /** The remote form appends to what the snapshot read and swaps; the local form appends to what is stored now.
      Whenever either succeeds, both store the same list. */
  lemma RemoteAppendsTheSame(json: Json, w: GM.World<Turns>, key: GM.Key, raw: GM.Slot<Turns>, content: bytes)
    requires GM.Inv(w) && (key, raw) in w.issued
    ensures var next := Appended(json, if raw.Live? then raw.content else [], content);
            && GM.SwapRaw(w.store, key, raw, Some(next)) == GM.Step(w.store, GM.Publish(key, raw.generation, next))
            && (GM.Matches(w.store, key, raw.generation) ==>
                  var slot := w.store.slots[key];
                  next == Appended(json, if slot.Live? then slot.content else [], content))
  {
    GM.RawSwapIsGenerationSwap(w, key, raw, Some(Appended(json, if raw.Live? then raw.content else [], content)));
    assert GM.SlotOk(w.store, key, raw);
  }
}
