/** Codex reasoning replay: one agent's completed turns in one list, trimmed at turn boundaries. */
module CodexReplay {
  import opened Bytes
  import opened ReplayItems
  import opened Eviction
  import opened TimedMap

  const MAX_TURNS_PER_ENTRY: nat := 256
  const MAX_BYTES_PER_ENTRY: nat := 0x100_0000

  type Key = string

  /** JSON is a parameter: the id of a turn marker (None for any other item), and the normal form of an item. */
  datatype Json = Json(marker: bytes -> Option<string>, normalize: ItemNormalizer)

  predicate IsMarker(json: Json, item: bytes) {
    json.marker(item).Some?
  }

  /** Turns start at index 0 and at every later marker. */
  function Starts(json: Json, items: Items): (starts: seq<nat>)
    ensures |starts| >= 1 && starts[0] == 0
  {
    if |items| <= 1 then [0]
    else
      var front := Starts(json, items[..|items| - 1]);
      if IsMarker(json, items[|items| - 1]) then front + [|items| - 1] else front
  }

  predicate Fits(json: Json, items: Items) {
    |Starts(json, items)| <= MAX_TURNS_PER_ENTRY && TotalBytes(items) <= MAX_BYTES_PER_ENTRY
  }

  /** A cut that does not split a turn; cutting at the end keeps nothing. */
  predicate Aligned(json: Json, items: Items, cut: nat)
    requires cut <= |items|
  {
    cut == 0 || cut == |items| || IsMarker(json, items[cut])
  }

  /** What trimming is for: the longest suffix of whole turns within both bounds. */
  ghost predicate LongestFitting(json: Json, items: Items, cut: nat) {
    && cut <= |items| && Aligned(json, items, cut) && Fits(json, items[cut..])
    && forall j :: 0 <= j < cut && Aligned(json, items, j) ==> !Fits(json, items[j..])
  }

  lemma LongestIsUnique(json: Json, items: Items, a: nat, b: nat)
    requires LongestFitting(json, items, a) && LongestFitting(json, items, b)
    ensures a == b
  {
  }

  lemma {:induction false} StartsAreAligned(json: Json, items: Items)
    ensures var starts := Starts(json, items);
            && (forall i :: 0 < i < |starts| ==> 0 < starts[i] < |items| && IsMarker(json, items[starts[i]]))
            && (forall i, j :: 0 <= i < j < |starts| ==> starts[i] < starts[j])
            && (forall k :: 0 < k < |items| && IsMarker(json, items[k]) ==> k in starts)
  {
    if |items| > 1 {
      var front := items[..|items| - 1];
      StartsAreAligned(json, front);
      var starts := Starts(json, items);
      forall k | 0 < k < |items| && IsMarker(json, items[k]) ensures k in starts {
        if k == |items| - 1 {
          assert starts[|starts| - 1] == k;
        } else {
          assert front[k] == items[k];
        }
      }
    }
  }

  /** Between two neighbouring starts there is no turn boundary. */
  lemma NoBoundaryBefore(json: Json, items: Items, k: nat)
    requires 0 < k < |items| && IsMarker(json, items[k])
    ensures |Starts(json, items)| > 1 && Starts(json, items)[1] <= k
  {
    StartsAreAligned(json, items);
    var starts := Starts(json, items);
    var i :| 0 <= i < |starts| && starts[i] == k;
    assert i != 0;
  }

  lemma NothingFits(json: Json)
    ensures Fits(json, [])
  {
  }

  lemma StartsSnoc(json: Json, items: Items, i: nat)
    requires i < |items|
    ensures Starts(json, items[..i + 1]) ==
            Starts(json, items[..i]) + (if i > 0 && IsMarker(json, items[i]) then [i] else [])
  {
    assert items[..i + 1][..i] == items[..i];
    assert Starts(json, items[..i]) + [] == Starts(json, items[..i]);
  }

  /** One pass of the trimming loop: where turns start, and how many bytes there are. */
  method Measure(json: Json, items: Items) returns (turnStarts: seq<nat>, totalBytes: nat)
    ensures turnStarts == Starts(json, items) && totalBytes == TotalBytes(items)
  {
    turnStarts, totalBytes := [0], 0;
    for index := 0 to |items|
      invariant turnStarts == Starts(json, items[..index]) && totalBytes == TotalBytes(items[..index])
    {
      StartsSnoc(json, items, index);
      TotalBytesSnoc(items, index);
      totalBytes := totalBytes + |items[index]|;
      if index > 0 && IsMarker(json, items[index]) {
        turnStarts := turnStarts + [index];
      }
    }
    assert items[..|items|] == items;
  }

  /** trimCodexReasoningReplayItems: drop whole turns from the front until the rest fits. */
  method TrimItems(json: Json, items: Items) returns (trimmed: Items)
    ensures trimmed == Trimmed(json, items)
  {
    hide Fits, Starts, TotalBytes, LongestFitting, Aligned, Skipped;
    trimmed := items;
    ghost var cut: nat := 0;
    NothingSkipped(json, items);
    while true
      invariant cut <= |items| && trimmed == items[cut..] && Skipped(json, items, cut)
      decreases |trimmed|
    {
      var turnStarts, totalBytes := Measure(json, trimmed);
      FitsMeans(json, trimmed);
      if |turnStarts| <= MAX_TURNS_PER_ENTRY && totalBytes <= MAX_BYTES_PER_ENTRY {
        SkippedEnough(json, items, cut);
        LongestIsUnique(json, items, cut, TheCut(json, items));
        return;
      }
      SkipTurn(json, items, cut);
      if |turnStarts| <= 1 {
        trimmed, cut := [], |items|;
        NothingFits(json);
        SkippedEnough(json, items, cut);
        LongestIsUnique(json, items, cut, TheCut(json, items));
        return;
      }
      cut := cut + turnStarts[1];
      trimmed := trimmed[turnStarts[1]..];
    }
  }

  /** The cut is at a turn boundary and no suffix of whole turns that is longer fits. */
  ghost predicate Skipped(json: Json, items: Items, cut: nat) {
    cut <= |items| && Aligned(json, items, cut) && forall j :: 0 <= j < cut && Aligned(json, items, j) ==> !Fits(json, items[j..])
  }

  lemma NothingSkipped(json: Json, items: Items)
    ensures Skipped(json, items, 0) && items[0..] == items
  {
  }

  lemma FitsMeans(json: Json, items: Items)
    ensures Fits(json, items) <==> |Starts(json, items)| <= MAX_TURNS_PER_ENTRY && TotalBytes(items) <= MAX_BYTES_PER_ENTRY
  {
  }

  lemma SkippedEnough(json: Json, items: Items, cut: nat)
    requires Skipped(json, items, cut) && Fits(json, items[cut..])
    ensures LongestFitting(json, items, cut)
  {
  }

  /** The turn at the cut does not fit with what follows: skip to the next start, or to the end. */
  lemma SkipTurn(json: Json, items: Items, cut: nat)
    requires Skipped(json, items, cut) && !Fits(json, items[cut..])
    ensures var starts := Starts(json, items[cut..]);
            && cut < |items| && items[|items|..] == []
            && (|starts| <= 1 ==> Skipped(json, items, |items|))
            && (|starts| > 1 ==>
                  && 0 < starts[1] < |items| - cut && Skipped(json, items, cut + starts[1])
                  && items[cut + starts[1]..] == items[cut..][starts[1]..])
  {
    hide Fits;
    NothingFits(json);
    assert items[|items|..] == [];
    var rest := items[cut..];
    var starts := Starts(json, rest);
    StartsAreAligned(json, rest);
    var next := if |starts| > 1 then cut + starts[1] else |items|;
    forall j | 0 <= j < next && Aligned(json, items, j) ensures !Fits(json, items[j..]) {
      if j > cut {
        assert rest[j - cut] == items[j];
        NoBoundaryBefore(json, rest, j - cut);
      }
    }
  }

  // ----- appending a turn -----

  /** The trimmed list as a function of the list, by its defining property. */
  ghost function Trimmed(json: Json, items: Items): Items
  {
    var cut := TheCut(json, items);
    items[cut..]
  }

  ghost function TheCut(json: Json, items: Items): (cut: nat)
    ensures LongestFitting(json, items, cut)
  {
    LongestExists(json, items, 0);
    var cut :| LongestFitting(json, items, cut);
    cut
  }

  lemma {:induction false} LongestExists(json: Json, items: Items, from: nat)
    requires from <= |items| && Skipped(json, items, from)
    ensures exists cut :: LongestFitting(json, items, cut)
    decreases |items| - from
  {
    hide Fits, Starts, Aligned, Skipped, LongestFitting;
    if Fits(json, items[from..]) {
      SkippedEnough(json, items, from);
    } else {
      SkipTurn(json, items, from);
      var starts := Starts(json, items[from..]);
      if |starts| <= 1 {
        NothingFits(json);
        SkippedEnough(json, items, |items|);
      } else {
        LongestExists(json, items, from + starts[1]);
      }
    }
  }

  /** Trimming a list that fits keeps all of it. */
  lemma TrimmedFitting(json: Json, items: Items)
    requires Fits(json, items)
    ensures Trimmed(json, items) == items
  {
    hide Fits;
    assert items[0..] == items;
    assert LongestFitting(json, items, 0);
    LongestIsUnique(json, items, TheCut(json, items), 0);
  }

  function TurnId(json: Json, turn: Items): string {
    if turn != [] && IsMarker(json, turn[0]) then json.marker(turn[0]).value else ""
  }

  predicate HasTurn(json: Json, items: Items, id: string) {
    exists i :: 0 <= i < |items| && json.marker(items[i]) == Some(id)
  }

  /** Lists that do not begin with a marker predate markers and are abandoned. */
  function Usable(json: Json, existing: Items): Items {
    if existing != [] && !IsMarker(json, existing[0]) then [] else existing
  }

  ghost function Appended(json: Json, existing: Items, turn: Items): Items {
    var kept := Usable(json, existing);
    var id := TurnId(json, turn);
    if id != "" && HasTurn(json, kept, id) then Trimmed(json, kept) else Trimmed(json, kept + turn)
  }

  /** appendCodexReasoningReplayTurn */
  method AppendTurn(json: Json, existing: Items, turn: Items) returns (combined: Items)
    ensures combined == Appended(json, existing, turn)
  {
    hide LongestFitting;
    var kept := if |existing| > 0 && !IsMarker(json, existing[0]) then [] else existing;
    var turnId := if |turn| > 0 && IsMarker(json, turn[0]) then json.marker(turn[0]).value else "";
    if turnId != "" {
      for index := 0 to |kept|
        invariant forall i :: 0 <= i < index ==> json.marker(kept[i]) != Some(turnId)
      {
        if json.marker(kept[index]) == Some(turnId) {
          combined := TrimItems(json, kept);
          return;
        }
      }
    }
    combined := TrimItems(json, kept + turn);
  }

  /** A completed turn: normalized, within bounds, and opened by its marker. */
  predicate IsTurn(json: Json, turn: Items) {
    turn != [] && IsMarker(json, turn[0]) && Fits(json, turn)
  }

  /** Appending a turn with a new id always keeps that whole turn, last. */
  lemma NewTurnIsKept(json: Json, existing: Items, turn: Items)
    requires IsTurn(json, turn) && !HasTurn(json, Usable(json, existing), TurnId(json, turn))
    ensures var after := Appended(json, existing, turn);
            |turn| <= |after| && after[|after| - |turn|..] == turn && Fits(json, after) && IsMarker(json, after[0])
  {
    hide Fits;
    var kept := Usable(json, existing);
    var all := kept + turn;
    var cut := TheCut(json, all);
    assert all[|kept|..] == turn;
    assert Aligned(json, all, |kept|);
    assert cut <= |kept|;
    assert all[cut..][|kept| - cut..] == turn;
    assert Appended(json, existing, turn) == all[cut..];
  }

  /** Appending the same turn id again changes nothing. */
  lemma SameTurnAgain(json: Json, existing: Items, turn: Items)
    requires IsTurn(json, turn) && TurnId(json, turn) != "" && Fits(json, existing)
    ensures Appended(json, Appended(json, existing, turn), turn) == Appended(json, existing, turn)
  {
    hide Fits, Trimmed;
    var kept := Usable(json, existing);
    var id := TurnId(json, turn);
    var after := Appended(json, existing, turn);
    if HasTurn(json, kept, id) {
      TrimmedFitting(json, kept);
    } else {
      NewTurnIsKept(json, existing, turn);
      assert after[|after| - |turn|..][0] == after[|after| - |turn|];
      assert HasTurn(json, after, id);
      TrimmedFitting(json, after);
    }
  }

  /** A first list of whole turns that fits is kept as it is, and so is every fitting extension by new turns. */
  lemma FittingAppendIsConcat(json: Json, existing: Items, turn: Items)
    requires Usable(json, existing) == existing && Fits(json, existing + turn)
    requires TurnId(json, turn) != "" ==> !HasTurn(json, existing, TurnId(json, turn))
    ensures Appended(json, existing, turn) == existing + turn
  {
    hide Fits, Trimmed;
    TrimmedFitting(json, existing + turn);
  }

  /** The bounds hold of every list an append stores. */
  lemma AppendedFits(json: Json, existing: Items, turn: Items)
    ensures Fits(json, Appended(json, existing, turn))
  {
    hide Fits;
  }

  // ----- normalizing -----

  ghost function Normalized(json: Json, items: Items): Items {
    Trimmed(json, Kept(json.normalize, items))
  }

  /** normalizeCodexReasoningReplayItems */
  method NormalizeItems(json: Json, items: Items) returns (normalized: Items, ok: bool)
    ensures normalized == Normalized(json, items) && (ok <==> normalized != [])
    ensures Fits(json, normalized)
  {
    hide LongestFitting, Fits;
    normalized := [];
    for i := 0 to |items|
      invariant normalized == Kept(json.normalize, items[..i])
    {
      KeptSnoc(json.normalize, items, i);
      var item := json.normalize(items[i]);
      if item.Some? {
        normalized := normalized + [item.value];
      } else {
        assert normalized + [] == normalized;
      }
    }
    assert items[..|items|] == items;
    ghost var kept := normalized;
    normalized := TrimItems(json, normalized);
    CutFits(json, kept, TheCut(json, kept));
    ok := |normalized| > 0;
  }

  lemma CutFits(json: Json, items: Items, cut: nat)
    requires LongestFitting(json, items, cut)
    ensures Fits(json, items[cut..])
  {
  }

  // ----- the in-process store -----

  ghost predicate ListsFit(json: Json, entries: map<Key, Timed<Items>>) {
    forall k :: k in entries ==> Fits(json, entries[k].value)
  }

  lemma PutFits(json: Json, entries: map<Key, Timed<Items>>, key: Key, items: Items, now: int, victims: set<Key>)
    requires ListsFit(json, entries) && Fits(json, items)
    ensures ListsFit(json, entries[key := Timed(items, now)] - victims)
  {
  }

  class ReplayCache {
    const json: Json
    var entries: map<Key, Timed<Items>>

    ghost predicate Valid()
      reads this
    {
      |entries| <= MAX_ENTRIES && ListsFit(json, entries)
    }

    constructor (json: Json)
      ensures Valid() && entries == map[] && this.json == json
    {
      this.json, entries := json, map[];
    }

    /** evictOldestCodexReasoningReplayEntries, once the cache is over its limit. */
    method MakeRoom() returns (ghost victims: set<Key>)
      requires |entries| <= MAX_ENTRIES + 1
      modifies this
      ensures entries == old(entries) - victims && |entries| <= MAX_ENTRIES
      ensures MadeRoom(old(entries), victims)
    {
      hide Stamps, OldestBatch;
      victims := {};
      assert entries - {} == entries;
      if |entries| > MAX_ENTRIES {
        var candidates := OldestKeys(Stamps(entries), EVICT_BATCH);
        victims := SetOf(candidates);
        BatchWithin(entries, EVICT_BATCH, victims);
        RemoveAll(candidates);
      }
    }

    method RemoveAll(keys: seq<Key>)
      modifies this
      ensures entries == old(entries) - SetOf(keys)
    {
      hide SetOf;
      ghost var before := entries;
      SetOfNone<Key>();
      for i := 0 to |keys|
        invariant entries == before - SetOf(keys[..i])
      {
        SetOfNext(keys, i);
        entries := entries - {keys[i]};
      }
      assert keys[..|keys|] == keys;
    }

    /** CacheCodexReasoningReplayItemsBestEffort, in-process form. */
    method CacheItems(key: Key, items: Items, now: int) returns (ok: bool, ghost victims: set<Key>)
      requires Valid()
      modifies this
      ensures Valid()
      ensures ok <==> key != "" && Normalized(json, items) != []
      ensures ok ==>
                var stored := old(entries)[key := Timed(Normalized(json, items), now)];
                entries == stored - victims && MadeRoom(stored, victims)
      ensures !ok ==> entries == old(entries)
    {
      hide Fits, Normalized, ListsFit, MadeRoom, Values;
      ok, victims := false, {};
      if key == "" {
        return;
      }
      var normalized, okNormalize := NormalizeItems(json, items);
      if !okNormalize {
        return;
      }
      ValuesPut(entries, key, Timed(normalized, now));
      ghost var before := entries;
      entries := entries[key := Timed(normalized, now)];
      victims := MakeRoom();
      PutFits(json, before, key, normalized, now, victims);
      ok := true;
    }

    /** AppendCodexReasoningReplayItemsBestEffort, in-process form: an expired list starts over. */
    method AppendItems(key: Key, items: Items, now: int) returns (ok: bool, ghost victims: set<Key>)
      requires Valid()
      modifies this
      ensures Valid()
      ensures ok <==> key != "" && Normalized(json, items) != []
      ensures ok ==>
                var live := key in old(entries) && now - old(entries)[key].timestamp <= TTL;
                var existing := if live then old(entries)[key].value else [];
                var stored := old(entries)[key := Timed(Appended(json, existing, Normalized(json, items)), now)];
                entries == stored - victims && MadeRoom(stored, victims)
      ensures !ok ==> entries == old(entries)
    {
      hide Fits, Normalized, Appended, ListsFit, MadeRoom, Values;
      ok, victims := false, {};
      if key == "" {
        return;
      }
      var normalized, okNormalize := NormalizeItems(json, items);
      if !okNormalize {
        return;
      }
      var existing := [];
      if key in entries && now - entries[key].timestamp <= TTL {
        existing := entries[key].value;
      }
      var combined := AppendTurn(json, existing, normalized);
      AppendedFits(json, existing, normalized);
      ValuesPut(entries, key, Timed(combined, now));
      ghost var before := entries;
      entries := entries[key := Timed(combined, now)];
      victims := MakeRoom();
      PutFits(json, before, key, combined, now, victims);
      ok := true;
    }

    /** GetCodexReasoningReplayItemsRequired, in-process form. */
    method GetItems(key: Key, now: int) returns (items: Items, found: bool)
      requires Valid()
      modifies this
      ensures Valid()
      ensures found <==> key != "" && key in old(entries) && now - old(entries)[key].timestamp <= TTL
      ensures found ==> items == old(entries)[key].value && entries == old(entries)[key := Timed(items, now)]
      ensures !found ==> items == [] && entries == if key == "" then old(entries) else old(entries) - {key}
    {
      hide Fits;
      items, found := [], false;
      if key == "" {
        return;
      }
      if key !in entries {
        assert entries - {key} == entries;
        return;
      }
      var entry := entries[key];
      ValuesDrop(entries, {key});
      if now - entry.timestamp > TTL {
        entries := entries - {key};
        return;
      }
      ValuesTouch(entries, key, now);
      entries := entries[key := entry.(timestamp := now)];
      items, found := entry.value, true;
    }
  }
}
