/** The remote form of the Antigravity replay cache: the same protocol over an atomic key-value store that
    other requests keep using between any two of our operations.  A request relies on the others only taking
    steps of the branch machine, and is proved to take only such steps itself. */
module AntigravityHome {
  import opened Bytes
  import opened ReplayItems
  import opened BranchMachine
  import opened Transport
  import AC = AntigravityCache

  const ATTEMPTS: nat := 4

  /** A value about to be written.  Its generation, and its branch when None, are nonces; a nonce is named
      when it becomes visible, which is when the value is stored. */
  datatype Draft = Draft(branch: Option<nat>, deleted: bool, items: Items)

  const TOMBSTONE := Draft(None, true, [])

  datatype HomeSnapshot = HomeSnapshot(raw: Option<Cell>, items: Items, branch: nat, loaded: bool)

  const NO_SNAPSHOT := HomeSnapshot(None, [], 0, false)

  function Stored(s: Store, key: Key): Option<Cell> {
    if key in s.cells then Some(s.cells[key]) else None
  }

  function PutDraft(s: Store, key: Key, draft: Draft): Store {
    Put(s, key, if draft.branch.Some? then draft.branch.value else s.lastBranch + 1, draft.deleted, draft.items)
  }

  function Core(raw: Cell): Snapshot {
    Snapshot(raw.revision, raw.branch, raw.items)
  }

  /** The snapshot is one that a Get for this key returned without error. */
  ghost predicate Issued(w: World, key: Key, sn: HomeSnapshot) {
    && sn.raw.Some? && sn.items == sn.raw.value.items && sn.branch == sn.raw.value.branch
    && (sn.raw.value.deleted <==> sn.raw.value.items == [])
    && (key, Core(sn.raw.value)) in w.issued
  }

  /** Swapping against exactly the value read lands exactly the local rule's first arm. */
  lemma RawMeansRevision(w: World, key: Key, sn: HomeSnapshot)
    requires Inv(w) && Issued(w, key, sn)
    ensures Stored(w.store, key) == sn.raw <==> Matches(w.store, key, Core(sn.raw.value))
  {
    IssuedFacts(w, key, Core(sn.raw.value));
  }

  /** What the retry loop may swap against: the value read, or a later one of the same branch that the chain extends. */
  predicate Acceptable(sn: HomeSnapshot, expected: Cell, items: Items) {
    Some(expected) == sn.raw || (!expected.deleted && sn.branch != 0 && expected.branch == sn.branch && expected.items <= items)
  }

  /** Every swap the retry loop accepts is one the mutex-local rule accepts, with the same branch. */
  lemma SwapIsPublish(w: World, key: Key, sn: HomeSnapshot, expected: Cell, items: Items, branch: Option<nat>)
    requires Inv(w) && Issued(w, key, sn) && items != []
    requires Stored(w.store, key) == Some(expected) && Acceptable(sn, expected, items)
    requires branch == if sn.branch == 0 || !(sn.items <= items) then None else Some(sn.branch)
    ensures var e := Publish(key, Core(sn.raw.value), items);
            && Legal(w, e) && PublishAllowed(w.store, key, e.snapshot, items)
            && World(PutDraft(w.store, key, Draft(branch, false, items)), w.issued) == Advance(w, e)
  {
    IssuedFacts(w, key, Core(sn.raw.value));
  }

  /** Every stored chain is in normal form: these caches store nothing else. */
  ghost predicate CellsNormal(normalize: ItemNormalizer, s: Store) {
    forall k :: k in s.cells && !s.cells[k].deleted ==> AC.Normal(normalize, s.cells[k].items)
  }

  predicate NormalEvent(normalize: ItemNormalizer, e: Event) {
    match e
    case Overwrite(_, items) => AC.Normal(normalize, items)
    case Publish(_, _, items) => AC.Normal(normalize, items)
    case _ => true
  }

  predicate NormalEvents(normalize: ItemNormalizer, events: seq<Event>) {
    forall e :: e in events ==> NormalEvent(normalize, e)
  }

  lemma {:induction false} PlayKeepsNormal(normalize: ItemNormalizer, w: World, events: seq<Event>)
    requires CellsNormal(normalize, w.store) && NormalEvents(normalize, events)
    ensures CellsNormal(normalize, Play(w, events).store)
    decreases |events|
  {
    hide AC.Normal;
    if events != [] {
      assert NormalEvent(normalize, events[0]);
      PlayKeepsNormal(normalize, Advance(w, events[0]), events[1..]);
    }
  }

  /** A draft that may be stored. */
  predicate NormalDraft(normalize: ItemNormalizer, draft: Draft) {
    draft.deleted || AC.Normal(normalize, draft.items)
  }

  lemma DraftKeepsNormal(normalize: ItemNormalizer, s: Store, key: Key, draft: Draft)
    requires CellsNormal(normalize, s) && NormalDraft(normalize, draft)
    ensures CellsNormal(normalize, PutDraft(s, key, draft))
  {
    hide AC.Normal;
  }

  lemma CellNormal(normalize: ItemNormalizer, s: Store, key: Key)
    requires CellsNormal(normalize, s) && key in s.cells && !s.cells[key].deleted
    ensures AC.Normal(normalize, s.cells[key].items)
  {
  }

  class HomeStore {
    const normalize: ItemNormalizer
    const script: seq<Turn<Event>>
    var turn: nat
    var world: World
    var renewed: seq<Key>   // the keys whose time to live was renewed, one by one

    ghost predicate Valid()
      reads this
    {
      Inv(world) && Normal()
    }

    /** The normalizer is idempotent and only its normal forms are stored. */
    ghost predicate Normal()
      reads this
    {
      AC.Idempotent(normalize) && CellsNormal(normalize, world.store)
    }

    constructor (normalize: ItemNormalizer, script: seq<Turn<Event>>)
      requires AC.Idempotent(normalize)
      ensures Valid() && world == World(EMPTY, {}) && this.normalize == normalize && this.script == script
    {
      this.normalize, this.script, turn, world, renewed := normalize, script, 0, World(EMPTY, {}), [];
    }

    /** Let the others move. */
    method Others() returns (fault: Fault, ghost others: seq<Event>)
      requires Valid()
      modifies this
      ensures Reached(old(world), others, world) && Normal()
      ensures turn == old(turn) + 1 && fault == FaultAt(script, old(turn)) && (others != [] ==> Disturbed(script, old(turn)))
      ensures renewed == old(renewed)
      ensures old(turn) < |script| ==>
                var steps := script[old(turn)].others;
                var normal := forall e :: e in steps && (e.Overwrite? || e.Publish?) ==> AC.Normal(normalize, e.items);
                others == if LegalRun(old(world), steps) && normal then steps else []
    {
      fault, others := Fine, [];
      if turn < |script| {
        fault := script[turn].fault;
        if LegalRun(world, script[turn].others) && NormalEvents(normalize, script[turn].others) {
          PlayKeepsNormal(normalize, world, script[turn].others);
          others := script[turn].others;
          ReachedByPlay(world, others);
          world := Play(world, script[turn].others);
        }
      }
      turn := turn + 1;
    }

    method KVGet(key: Key) returns (raw: Option<Cell>, failed: bool, ghost others: seq<Event>)
      requires Valid()
      modifies this
      ensures Reached(old(world), others, world) && Normal()
      ensures !failed ==> raw == Stored(world.store, key)
      ensures renewed == old(renewed)
      ensures turn == old(turn) + 1 && (failed <==> FaultAt(script, old(turn)) != Fine)
      ensures others != [] ==> Disturbed(script, old(turn))
    {
      var fault;
      fault, others := Others();
      raw, failed := Stored(world.store, key), fault != Fine;
    }

    method KVExpire(key: Key) returns (failed: bool, ghost others: seq<Event>)
      requires Valid()
      modifies this
      ensures Reached(old(world), others, world) && Normal()
      ensures turn == old(turn) + 1 && (failed <==> FaultAt(script, old(turn)) != Fine)
      ensures others != [] ==> Disturbed(script, old(turn))
      ensures renewed == if FaultAt(script, old(turn)) != Refused then old(renewed) + [key] else old(renewed)
    {
      var fault;
      fault, others := Others();
      failed := fault != Fine;
      if fault != Refused {
        renewed := renewed + [key];
      }
    }

    /** Atomically replace the value only when the current state is the expected one. */
    method KVCompareAndSwap(key: Key, expected: Option<Cell>, value: Draft)
      returns (swapped: bool, failed: bool, ghost others: seq<Event>, ghost mid: World, ghost landed: bool)
      requires Valid() && NormalDraft(normalize, value)
      modifies this
      ensures Reached(old(world), others, mid) && Normal()
      ensures world == if landed then World(PutDraft(mid.store, key, value), mid.issued) else mid
      ensures landed <==> FaultAt(script, old(turn)) != Refused && Stored(mid.store, key) == expected
      ensures swapped <==> landed && !failed
      ensures renewed == old(renewed)
      ensures turn == old(turn) + 1 && (failed <==> FaultAt(script, old(turn)) != Fine)
      ensures others != [] ==> Disturbed(script, old(turn))
    {
      var fault;
      fault, others := Others();
      mid, landed := world, false;
      swapped, failed := false, fault != Fine;
      if fault != Refused && Stored(world.store, key) == expected {
        DraftKeepsNormal(normalize, world.store, key, value);
        world := World(PutDraft(world.store, key, value), world.issued);
        landed, swapped := true, !failed;
      }
    }

    method KVSet(key: Key, value: Draft)
      returns (written: bool, failed: bool, ghost others: seq<Event>, ghost mid: World, ghost landed: bool)
      requires Valid() && NormalDraft(normalize, value)
      modifies this
      ensures Reached(old(world), others, mid) && Normal()
      ensures world == if landed then World(PutDraft(mid.store, key, value), mid.issued) else mid
      ensures written <==> landed && !failed
      ensures renewed == old(renewed)
      ensures landed <==> FaultAt(script, old(turn)) != Refused
      ensures turn == old(turn) + 1 && (failed <==> FaultAt(script, old(turn)) != Fine)
      ensures others != [] ==> Disturbed(script, old(turn))
    {
      var fault;
      fault, others := Others();
      mid, landed := world, fault != Refused;
      failed, written := fault != Fine, fault == Fine;
      if fault != Refused {
        DraftKeepsNormal(normalize, world.store, key, value);
        world := World(PutDraft(world.store, key, value), world.issued);
      }
    }

    /** Record that a request holds what the key stores now. */
    method Issue(key: Key)
      requires Valid() && key in world.store.cells
      modifies this`world
      ensures world == Advance(old(world), Read(key)) && Normal()
    {
      world := World(world.store, world.issued + {(key, SnapshotOf(world.store, key))});
    }
  }

  /** The last step of a run is this one. */
  predicate LastIs(steps: seq<Event>, mine: Event) {
    steps != [] && steps[|steps| - 1] == mine
  }

  /** A run that ends with a request holding what the key stored then. */
  ghost predicate ReadAt(from: World, steps: seq<Event>, to: World, key: Key, raw: Cell) {
    && Reached(from, steps, to) && LastIs(steps, Read(key)) && Stored(to.store, key) == Some(raw)
    && (key, Core(raw)) in to.issued && (raw.deleted <==> raw.items == [])
  }

  /** One round of Get: read the value, or fence a miss with a tombstone. */
  method ReadOrFence(kv: HomeStore, key: Key) returns (raw: Option<Cell>, failed: bool, ghost steps: seq<Event>)
    requires kv.Valid()
    modifies kv
    ensures Reached(old(kv.world), steps, kv.world) && kv.Valid()
    ensures raw.Some? && !failed ==> ReadAt(old(kv.world), steps, kv.world, key, raw.value)
    ensures kv.turn > old(kv.turn) && (failed ==> FaultIn(kv.script, old(kv.turn), kv.turn)) && kv.renewed == old(kv.renewed)
    ensures !failed && raw == None ==> kv.turn == old(kv.turn) + 2 && Disturbed(kv.script, old(kv.turn) + 1)
    ensures Calm(kv.script, old(kv.turn)) ==>
              !failed && raw.Some? && steps == if key in old(kv.world).store.cells then [Read(key)] else [Bury(key), Read(key)]
  {
    hide Reached, Inv, Advance, LegalRun, Play, AC.Idempotent, CellsNormal, AC.Normalized, FaultAt, Disturbed, FaultIn, Calm;
    ghost var start := kv.turn;
    if Calm(kv.script, start) {
      CalmAt(kv.script, start, start);
      CalmAt(kv.script, start, start + 1);
    }
    raw, failed, steps := kv.KVGet(key);
    ReachedInv(old(kv.world), steps, kv.world);
    if failed {
      FaultThere(kv.script, start, start, kv.turn);
    }
    if steps == [] {
      ReachedIsPlay(old(kv.world), [], kv.world);
      PlayNothing(old(kv.world));
    }
    if !failed && raw.None? {
      var swapped;
      ghost var more, mid, landed;
      ghost var read := kv.world;
      swapped, failed, more, mid, landed := kv.KVCompareAndSwap(key, None, TOMBSTONE);
      ReachedMore(old(kv.world), steps, read, more, mid);
      if failed {
        FaultThere(kv.script, start, start + 1, kv.turn);
      }
      if more == [] {
        ReachedIsPlay(read, [], mid);
        PlayNothing(read);
      }
      steps := steps + more;
      if landed {
        BuryIsFence(mid, key);
        ReachedStep(old(kv.world), steps, mid, Bury(key));
        steps := steps + [Bury(key)];
      }
      if swapped {
        raw := Stored(kv.world.store, key);
      }
      ReachedInv(old(kv.world), steps, kv.world);
    }
    if !failed && raw.Some? {
      CellShape(kv.world, key);
      ReadIssues(kv.world, key);
      ReachedStep(old(kv.world), steps, kv.world, Read(key));
      kv.Issue(key);
      steps := steps + [Read(key)];
      ReachedInv(old(kv.world), steps, kv.world);
    }
  }

  lemma BuryIsFence(w: World, key: Key)
    ensures World(PutDraft(w.store, key, TOMBSTONE), w.issued) == Advance(w, Bury(key)) && Legal(w, Bury(key))
    ensures key in PutDraft(w.store, key, TOMBSTONE).cells
  {
  }

  lemma ReadIssues(w: World, key: Key)
    requires key in w.store.cells
    ensures Legal(w, Read(key)) && Advance(w, Read(key)) == World(w.store, w.issued + {(key, SnapshotOf(w.store, key))})
  {
  }

  /** GetAntigravityReasoningReplayItemsWithSnapshotRequired, remote form: the value read (or the tombstone put in
      its place) was what the key stored at one moment `seen` of the call. */
  method Get(kv: HomeStore, key: Key)
    returns (items: Items, snapshot: HomeSnapshot, found: bool, failed: bool,
             ghost before: seq<Event>, ghost seen: World, ghost after: seq<Event>)
    requires kv.Valid()
    modifies kv
    ensures Reached(old(kv.world), before, seen) && Reached(seen, after, kv.world) && kv.Valid()
    ensures key == "" ==>
              !found && !failed && items == [] && !snapshot.loaded && snapshot.raw == None && before == [] == after
    ensures key != "" && !failed ==>
              && snapshot.loaded && snapshot.raw.Some? && ReadAt(old(kv.world), before, seen, key, snapshot.raw.value)
              && Issued(kv.world, key, snapshot)
              && (found <==> !seen.store.cells[key].deleted) && items == snapshot.items
    ensures failed ==> key != "" && !found && items == [] && snapshot.loaded
    ensures found ==> kv.renewed == old(kv.renewed) + [key]
    ensures !failed && !found ==> kv.renewed == old(kv.renewed)
    ensures failed ==> FaultIn(kv.script, old(kv.turn), kv.turn)
                       || forall k :: 0 <= k < ATTEMPTS ==> Disturbed(kv.script, old(kv.turn) + 2 * k + 1)
    ensures Calm(kv.script, old(kv.turn)) ==>
              && !failed && after == []
              && before == if key == "" then [] else if key in old(kv.world).store.cells then [Read(key)] else [Bury(key), Read(key)]
  {
    hide Inv, Reached, AC.Idempotent, CellsNormal, AC.Normalized, FaultAt, Disturbed, FaultIn, Calm;
    items, snapshot, found, failed, before, after, seen := [], NO_SNAPSHOT, false, false, [], [], kv.world;
    ReachedNothing(kv.world);
    ghost var began := kv.turn;
    if key == "" {
      return;
    }
    snapshot := snapshot.(loaded := true);
    var raw: Option<Cell> := None;
    for attempt := 0 to ATTEMPTS
      invariant raw == None && !failed && Reached(old(kv.world), before, kv.world) && kv.Valid() && kv.renewed == old(kv.renewed)
      invariant kv.turn == began + 2 * attempt && (attempt == 0 ==> before == [] && kv.world == old(kv.world))
      invariant forall k :: 0 <= k < attempt ==> Disturbed(kv.script, began + 2 * k + 1)
      invariant Calm(kv.script, began) ==> attempt == 0
    {
      ghost var more, start, here := [], kv.world, kv.turn;
      raw, failed, more := ReadOrFence(kv, key);
      if failed {
        FaultLater(kv.script, began, here, kv.turn);
      }
      ReachedMore(old(kv.world), before, start, more, kv.world);
      before := before + more;
      if failed || raw.Some? {
        break;
      }
    }
    seen := kv.world;
    ReachedInv(old(kv.world), before, seen);
    ReachedNothing(seen);
    if failed || raw.None? {
      failed := true;
      return;
    }
    snapshot := HomeSnapshot(raw, [], raw.value.branch, true);
    if raw.value.deleted || |raw.value.items| == 0 {
      return;
    }
    CellNormal(kv.normalize, seen.store, key);
    var normalized, okNormalize := AC.NormalizeItems(kv.normalize, raw.value.items);
    if !okNormalize || |normalized| != |raw.value.items| {
      return;
    }
    snapshot := snapshot.(items := normalized);
    ghost var here := kv.turn;
    if Calm(kv.script, began) {
      CalmAt(kv.script, began, here);
    }
    failed, after := kv.KVExpire(key);
    if failed {
      FaultThere(kv.script, began, here, kv.turn);
    }
    ReachedInv(seen, after, kv.world);
    IssuedStays(seen, after, (key, Core(raw.value)));
    if failed {
      return;
    }
    items, found := normalized, true;
  }

  /** Before each of the later swaps someone else was at work. */
  predicate AllDisturbed(script: seq<Turn<Event>>, from: nat) {
    forall k :: 1 <= k < ATTEMPTS ==> Disturbed(script, from + 2 * k)
  }

  /** ReplaceAntigravityReasoningReplayItemsIfUnchanged, remote form, for a normalized chain and a snapshot Get
      returned.  `others` are the steps other requests took before our swap landed, or in all if it did not. */
  method ReplaceLoaded(kv: HomeStore, key: Key, snapshot: HomeSnapshot, normalized: Items)
    returns (ok: bool, failed: bool, ghost others: seq<Event>, ghost mid: World, ghost landed: bool)
    requires kv.Valid() && Issued(kv.world, key, snapshot) && normalized != [] && AC.Normal(kv.normalize, normalized)
    modifies kv
    ensures Reached(old(kv.world), others, mid)
    ensures var mine := Publish(key, Core(snapshot.raw.value), normalized);
            && kv.world == (if landed then Advance(mid, mine) else mid)
            && (landed ==> Legal(mid, mine) && PublishAllowed(mid.store, key, mine.snapshot, normalized))
    ensures kv.Valid()
    ensures ok ==> landed
    ensures landed && !ok ==> failed
    ensures others == [] && !failed ==>
              (ok <==> PublishAllowed(old(kv.world).store, key, Core(snapshot.raw.value), normalized))
    ensures failed ==> FaultIn(kv.script, old(kv.turn), kv.turn)
    ensures !failed && !ok && PublishAllowed(mid.store, key, Core(snapshot.raw.value), normalized) ==>
              AllDisturbed(kv.script, old(kv.turn))
    ensures Calm(kv.script, old(kv.turn)) ==> others == []
  {
    hide FaultAt, Disturbed, FaultIn, Calm, Inv, Reached, LegalRun, Play, AC.Idempotent, CellsNormal, AC.Normalized, Put;
    ghost var began, core := kv.turn, Core(snapshot.raw.value);
    ok, failed, others, mid, landed := false, false, [], kv.world, false;
    var expected := snapshot.raw.value;
    var branch := if snapshot.branch == 0 || !(snapshot.items <= normalized) then None else Some(snapshot.branch);
    ReachedNothing(kv.world);
    for attempt := 0 to ATTEMPTS
      invariant Reached(old(kv.world), others, kv.world) && mid == kv.world && kv.Valid()
      invariant !landed && !failed && !ok && Acceptable(snapshot, expected, normalized) && Issued(kv.world, key, snapshot)
      invariant attempt == 0 ==> Some(expected) == snapshot.raw && others == [] && kv.world == old(kv.world)
      invariant attempt > 0 ==> Stored(mid.store, key) == Some(expected) && !Matches(mid.store, key, core)
      invariant attempt > 0 ==> core.revision <= mid.store.lastRevision
      invariant kv.turn == began + 2 * attempt && (Calm(kv.script, began) ==> others == [])
      invariant others == [] ==> kv.world == old(kv.world) && attempt <= 1
      invariant forall k :: 1 <= k < attempt ==> Disturbed(kv.script, began + 2 * k)
    {
      ghost var more, start, here := [], kv.world, kv.turn;
      if Calm(kv.script, began) {
        CalmAt(kv.script, began, here);
        CalmAt(kv.script, began, here + 1);
      }
      ok, failed, more, mid, landed := TrySwap(kv, key, snapshot, expected, normalized, branch);
      ReachedMore(old(kv.world), others, start, more, mid);
      others := others + more;
      if failed {
        FaultThere(kv.script, began, here, kv.turn);
      }
      if attempt > 0 {
        NeverAgainReached(start, more, mid, key, core);
      }
      if failed || ok {
        return;
      }
      LostSwap(mid, key, snapshot, attempt > 0);
      ghost var lost := mid;
      var current;
      current, failed, more := ReadBack(kv, key, snapshot, normalized);
      ReachedMore(old(kv.world), others, lost, more, kv.world);
      others := others + more;
      mid := kv.world;
      NeverAgainReached(lost, more, mid, key, core);
      if failed {
        FaultThere(kv.script, began, here + 1, kv.turn);
      }
      if failed || current.None? {
        return;
      }
      expected := current.value;
    }
  }

  /** A swap against the value read that did not land found another value, so the snapshot is not current. */
  lemma LostSwap(w: World, key: Key, snapshot: HomeSnapshot, later: bool)
    requires Inv(w) && Issued(w, key, snapshot)
    requires later ==> !Matches(w.store, key, Core(snapshot.raw.value))
    requires !later ==> Stored(w.store, key) != snapshot.raw
    ensures !Matches(w.store, key, Core(snapshot.raw.value))
    ensures Core(snapshot.raw.value).revision <= w.store.lastRevision
  {
    RawMeansRevision(w, key, snapshot);
    IssuedFacts(w, key, Core(snapshot.raw.value));
  }

  /** One swap of the loop. */
  method TrySwap(kv: HomeStore, key: Key, snapshot: HomeSnapshot, expected: Cell, normalized: Items, branch: Option<nat>)
    returns (ok: bool, failed: bool, ghost others: seq<Event>, ghost mid: World, ghost landed: bool)
    requires kv.Valid() && Issued(kv.world, key, snapshot) && normalized != [] && AC.Normal(kv.normalize, normalized)
    requires Acceptable(snapshot, expected, normalized)
    requires branch == if snapshot.branch == 0 || !(snapshot.items <= normalized) then None else Some(snapshot.branch)
    modifies kv
    ensures kv.Valid() && Reached(old(kv.world), others, mid) && Issued(mid, key, snapshot)
    ensures var mine := Publish(key, Core(snapshot.raw.value), normalized);
            && kv.world == (if landed then Advance(mid, mine) else mid)
            && (landed ==> Legal(mid, mine) && PublishAllowed(mid.store, key, mine.snapshot, normalized))
    ensures kv.turn == old(kv.turn) + 1 && (failed <==> FaultAt(kv.script, old(kv.turn)) != Fine) && (ok <==> landed && !failed)
    ensures !failed ==> (landed <==> Stored(mid.store, key) == Some(expected))
    ensures others != [] ==> Disturbed(kv.script, old(kv.turn))
    ensures others == [] ==> mid == old(kv.world)
  {
    hide FaultAt, Disturbed, Inv, Reached, LegalRun, Play, AC.Idempotent, CellsNormal, AC.Normalized, PutDraft;
    ok, failed, others, mid, landed := kv.KVCompareAndSwap(key, Some(expected), Draft(branch, false, normalized));
    ReachedInv(old(kv.world), others, mid);
    ReachedIsPlay(old(kv.world), others, mid);
    PlayNothing(old(kv.world));
    IssuedStays(old(kv.world), others, (key, Core(snapshot.raw.value)));
    if landed {
      SwapIsPublish(mid, key, snapshot, expected, normalized, branch);
      StepKeepsInv(mid, Publish(key, Core(snapshot.raw.value), normalized));
    }
  }

  /** After a lost swap: read what is stored now, and go on only if the chain extends it on the same branch. */
  method ReadBack(kv: HomeStore, key: Key, snapshot: HomeSnapshot, normalized: Items)
    returns (current: Option<Cell>, failed: bool, ghost others: seq<Event>)
    requires kv.Valid() && Issued(kv.world, key, snapshot)
    modifies kv
    ensures kv.Valid() && Reached(old(kv.world), others, kv.world) && Issued(kv.world, key, snapshot)
    ensures current.Some? ==> Stored(kv.world.store, key) == current && Acceptable(snapshot, current.value, normalized)
    ensures !failed ==> (current.Some? <==> Descends(kv.world.store, key, Core(snapshot.raw.value), normalized))
    ensures kv.turn == old(kv.turn) + 1 && (failed <==> FaultAt(kv.script, old(kv.turn)) != Fine)
    ensures others != [] ==> Disturbed(kv.script, old(kv.turn))
    ensures others == [] ==> kv.world == old(kv.world)
  {
    hide FaultAt, Disturbed, Inv, Reached, LegalRun, Play, AC.Idempotent, CellsNormal;
    current, failed, others := kv.KVGet(key);
    ReachedInv(old(kv.world), others, kv.world);
    ReachedIsPlay(old(kv.world), others, kv.world);
    PlayNothing(old(kv.world));
    IssuedStays(old(kv.world), others, (key, Core(snapshot.raw.value)));
    if failed || current.None? {
      return None, failed, others;
    }
    if current.value.deleted || snapshot.branch == 0 || current.value.branch != snapshot.branch {
      return None, false, others;
    }
    CellNormal(kv.normalize, kv.world.store, key);
    var normalizedCurrent, okNormalizeCurrent := AC.NormalizeItems(kv.normalize, current.value.items);
    if !okNormalizeCurrent || |normalizedCurrent| != |current.value.items| {
      return None, false, others;
    }
    var continues := AC.ItemsPrefix(normalizedCurrent, normalized);
    if !continues {
      return None, false, others;
    }
  }

  /** CacheAntigravityReasoningReplayItemsBestEffort, remote form. */
  method CacheItems(kv: HomeStore, key: Key, items: Items)
    returns (ok: bool, ghost others: seq<Event>, ghost mid: World, ghost landed: bool)
    requires kv.Valid()
    modifies kv
    ensures kv.Valid() && Reached(old(kv.world), others, mid)
    ensures key == "" || AC.Normalized(kv.normalize, items).None? ==> !ok && !landed && others == [] && kv.turn == old(kv.turn)
    ensures key != "" && AC.Normalized(kv.normalize, items).Some? ==>
              && kv.turn == old(kv.turn) + 1
              && (ok <==> FaultAt(kv.script, old(kv.turn)) == Fine) && (landed <==> FaultAt(kv.script, old(kv.turn)) != Refused)
    ensures landed ==> kv.world == Advance(mid, Overwrite(key, AC.Normalized(kv.normalize, items).value))
    ensures ok ==> landed
    ensures !landed ==> kv.world == mid
    ensures others != [] ==> Disturbed(kv.script, old(kv.turn))
  {
    hide Inv, Reached, AC.Normalized, AC.Idempotent, CellsNormal;
    ok, others, mid, landed := false, [], kv.world, false;
    ReachedNothing(kv.world);
    if key == "" {
      return;
    }
    var normalized, okNormalize := AC.NormalizeItems(kv.normalize, items);
    if !okNormalize {
      return;
    }
    AC.NormalizedNonEmpty(kv.normalize, items);
    AC.NormalizedIsNormal(kv.normalize, items);
    var failed;
    ok, failed, others, mid, landed := kv.KVSet(key, Draft(None, false, normalized));
    ReachedInv(old(kv.world), others, mid);
    StepKeepsInv(mid, Overwrite(key, normalized));
  }

  /** ReplaceAntigravityReasoningReplayItemsIfUnchanged, remote form. */
  method Replace(kv: HomeStore, key: Key, snapshot: HomeSnapshot, items: Items)
    returns (ok: bool, failed: bool, ghost others: seq<Event>, ghost mid: World, ghost landed: bool)
    requires kv.Valid() && (snapshot.loaded ==> Issued(kv.world, key, snapshot))
    modifies kv
    ensures kv.Valid() && Reached(old(kv.world), others, mid)
    ensures ok ==> landed
    ensures !landed ==> kv.world == mid
    ensures key == "" ==> !ok && !failed && !landed && others == []
    ensures key != "" && AC.Normalized(kv.normalize, items).None? ==> !ok && failed && !landed && others == []
    ensures landed && snapshot.loaded ==>
              var mine := Publish(key, Core(snapshot.raw.value), AC.Normalized(kv.normalize, items).value);
              Legal(mid, mine) && PublishAllowed(mid.store, key, mine.snapshot, mine.items) && kv.world == Advance(mid, mine)
    ensures landed && !snapshot.loaded ==>
              kv.world == Advance(mid, Overwrite(key, AC.Normalized(kv.normalize, items).value))
    ensures landed ==>
              && key in kv.world.store.cells && !kv.world.store.cells[key].deleted
              && Some(kv.world.store.cells[key].items) == AC.Normalized(kv.normalize, items)
    ensures key != "" && AC.Normalized(kv.normalize, items).Some? && !snapshot.loaded ==>
              !failed && (ok <==> FaultAt(kv.script, old(kv.turn)) == Fine) && (landed <==> FaultAt(kv.script, old(kv.turn)) != Refused)
    ensures key != "" && AC.Normalized(kv.normalize, items).Some? && snapshot.loaded ==>
              && (landed && !ok ==> failed) && (failed ==> FaultIn(kv.script, old(kv.turn), kv.turn))
              && var items := AC.Normalized(kv.normalize, items).value;
              (!failed && !ok && PublishAllowed(mid.store, key, Core(snapshot.raw.value), items) ==>
                 AllDisturbed(kv.script, old(kv.turn)))
    ensures key != "" && AC.Normalized(kv.normalize, items).Some? && Calm(kv.script, old(kv.turn)) ==>
              && !failed && mid == old(kv.world)
              && (ok <==> snapshot.loaded ==>
                    PublishAllowed(old(kv.world).store, key, Core(snapshot.raw.value), AC.Normalized(kv.normalize, items).value))
  {
    hide Inv, Reached, Play, LegalRun, AC.Normalized, AC.Idempotent, CellsNormal, FaultAt, Disturbed, FaultIn, Calm;
    hide AllDisturbed, PublishAllowed;
    ok, failed, others, mid, landed := false, false, [], kv.world, false;
    ReachedNothing(kv.world);
    ghost var began := kv.turn;
    if Calm(kv.script, began) {
      CalmAt(kv.script, began, began);
      CalmHasNoFault(kv.script, began);
      CalmIsNotDisturbed(kv.script, began);
    }
    if key == "" {
      return;
    }
    var normalized, okNormalize := AC.NormalizeItems(kv.normalize, items);
    if !okNormalize {
      failed := true;
      return;
    }
    AC.NormalizedNonEmpty(kv.normalize, items);
    AC.NormalizedIsNormal(kv.normalize, items);
    if !snapshot.loaded {
      ok, others, mid, landed := CacheItems(kv, key, normalized);
      ReachedIsPlay(old(kv.world), others, mid);
      PlayNothing(old(kv.world));
      OverwriteStores(mid, key, normalized);
      return;
    }
    ok, failed, others, mid, landed := ReplaceLoaded(kv, key, snapshot, normalized);
    ReachedIsPlay(old(kv.world), others, mid);
    PlayNothing(old(kv.world));
    PublishStores(mid, key, Core(snapshot.raw.value), normalized);
  }

  lemma CalmIsNotDisturbed(script: seq<Turn<Event>>, from: nat)
    requires Calm(script, from)
    ensures !AllDisturbed(script, from)
  {
    CalmAt(script, from, from + 2 * 1);
    assert !Disturbed(script, from + 2 * 1);
  }

  lemma OverwriteStores(w: World, key: Key, items: Items)
    ensures var s := Advance(w, Overwrite(key, items)).store; key in s.cells && !s.cells[key].deleted && s.cells[key].items == items
  {
  }

  lemma PublishStores(w: World, key: Key, snapshot: Snapshot, items: Items)
    ensures PublishAllowed(w.store, key, snapshot, items) ==>
              var s := Advance(w, Publish(key, snapshot, items)).store;
              key in s.cells && !s.cells[key].deleted && s.cells[key].items == items
  {
    hide PublishAllowed;
  }

  /** DeleteAntigravityReasoningReplayItemRequired, remote form. */
  method Delete(kv: HomeStore, key: Key)
    returns (failed: bool, ghost others: seq<Event>, ghost mid: World, ghost landed: bool)
    requires kv.Valid()
    modifies kv
    ensures kv.Valid() && Reached(old(kv.world), others, mid)
    ensures key == "" ==> !failed && !landed && others == []
    ensures key != "" ==>
              && kv.turn == old(kv.turn) + 1 && (failed <==> FaultAt(kv.script, old(kv.turn)) != Fine)
              && (landed <==> FaultAt(kv.script, old(kv.turn)) != Refused)
    ensures others != [] ==> Disturbed(kv.script, old(kv.turn))
    ensures kv.world == if landed then Advance(mid, Bury(key)) else mid
  {
    hide Inv, Reached, AC.Idempotent, CellsNormal, AC.Normalized;
    failed, others, mid, landed := false, [], kv.world, false;
    ReachedNothing(kv.world);
    if key == "" {
      return;
    }
    var written;
    written, failed, others, mid, landed := kv.KVSet(key, TOMBSTONE);
    BuryIsFence(mid, key);
    ReachedInv(old(kv.world), others, mid);
    StepKeepsInv(mid, Bury(key));
  }

  /** DeleteAntigravityReasoningReplayItemsIfUnchanged, remote form: one swap of the value read for a tombstone. */
  method DeleteIfUnchanged(kv: HomeStore, key: Key, snapshot: HomeSnapshot)
    returns (ok: bool, failed: bool, ghost others: seq<Event>, ghost mid: World, ghost landed: bool)
    requires kv.Valid() && (snapshot.loaded ==> Issued(kv.world, key, snapshot))
    modifies kv
    ensures kv.Valid() && Reached(old(kv.world), others, mid)
    ensures key == "" ==> !ok && !failed && !landed && others == []
    ensures key != "" && snapshot.loaded ==>
              var mine := DeleteIf(key, Core(snapshot.raw.value));
              && kv.world == (if landed then Advance(mid, mine) else mid)
              && (landed ==> Legal(mid, mine))
              && (landed <==> FaultAt(kv.script, old(kv.turn)) != Refused && Matches(mid.store, key, mine.snapshot))
              && (ok <==> landed && !failed)
    ensures key != "" && !snapshot.loaded ==>
              && ok && kv.world == (if landed then Advance(mid, Bury(key)) else mid)
              && (landed <==> FaultAt(kv.script, old(kv.turn)) != Refused)
    ensures key != "" ==> kv.turn == old(kv.turn) + 1 && (failed <==> FaultAt(kv.script, old(kv.turn)) != Fine)
    ensures others != [] ==> Disturbed(kv.script, old(kv.turn))
  {
    hide Inv, Reached, AC.Idempotent, CellsNormal, AC.Normalized;
    ok, failed, others, mid, landed := false, false, [], kv.world, false;
    ReachedNothing(kv.world);
    if key == "" {
      return;
    }
    if !snapshot.loaded {
      failed, others, mid, landed := Delete(kv, key);
      ok := true;
      return;
    }
    ok, failed, others, mid, landed := kv.KVCompareAndSwap(key, snapshot.raw, TOMBSTONE);
    ReachedInv(old(kv.world), others, mid);
    IssuedStays(old(kv.world), others, (key, Core(snapshot.raw.value)));
    ReachedIsPlay(old(kv.world), others, mid);
    RawMeansRevision(mid, key, snapshot);
    StepKeepsInv(mid, DeleteIf(key, Core(snapshot.raw.value)));
  }
}
