/** The protocol behind the Antigravity replay cache, without clocks, capacity or transport:
    per key a revisioned cell on a branch, read by snapshot and published optimistically. */
module BranchMachine {
  import opened ReplayItems

  type Key = string

  /** What a key holds.  A tombstone is deleted and has no items. */
  datatype Cell = Cell(revision: nat, branch: nat, deleted: bool, items: Items)

  /** What a request remembers of the cell it read.  Branch 0 is the empty branch name. */
  datatype Snapshot = Snapshot(revision: nat, branch: nat, items: Items)

  /** Revisions are counted up; branch names are drawn fresh. */
  datatype Store = Store(cells: map<Key, Cell>, lastRevision: nat, lastBranch: nat)

  const EMPTY: Store := Store(map[], 0, 0)

  datatype Event =
    | Read(key: Key)
    | Overwrite(key: Key, items: Items)
    | Bury(key: Key)
    | Publish(key: Key, snapshot: Snapshot, items: Items)
    | DeleteIf(key: Key, snapshot: Snapshot)
    | Drop(keys: set<Key>)

  function Put(s: Store, key: Key, branch: nat, deleted: bool, items: Items): Store {
    s.(cells := s.cells[key := Cell(s.lastRevision + 1, branch, deleted, items)],
       lastRevision := s.lastRevision + 1,
       lastBranch := if branch > s.lastBranch then branch else s.lastBranch)
  }

  /** A cell of a fresh branch. */
  function PutFresh(s: Store, key: Key, deleted: bool, items: Items): Store {
    Put(s, key, s.lastBranch + 1, deleted, items)
  }

  predicate Matches(s: Store, key: Key, snapshot: Snapshot) {
    key in s.cells && s.cells[key].revision == snapshot.revision
  }

  predicate Descends(s: Store, key: Key, snapshot: Snapshot, items: Items) {
    && key in s.cells && !s.cells[key].deleted
    && snapshot.branch != 0 && s.cells[key].branch == snapshot.branch
    && s.cells[key].items <= items
  }

  /** The rule for landing a completed chain: nothing changed, or it extends what is there on the same branch. */
  predicate PublishAllowed(s: Store, key: Key, snapshot: Snapshot, items: Items) {
    Matches(s, key, snapshot) || Descends(s, key, snapshot, items)
  }

  function PublishBranch(s: Store, key: Key, snapshot: Snapshot, items: Items): nat {
    if snapshot.branch == 0 || (Matches(s, key, snapshot) && !(snapshot.items <= items)) then s.lastBranch + 1
    else snapshot.branch
  }

  function Step(s: Store, e: Event): Store {
    match e
    case Read(key) => if key in s.cells then s else PutFresh(s, key, true, [])
    case Overwrite(key, items) => PutFresh(s, key, false, items)
    case Bury(key) => PutFresh(s, key, true, [])
    case Publish(key, snapshot, items) =>
      if PublishAllowed(s, key, snapshot, items)
      then Put(s, key, PublishBranch(s, key, snapshot, items), false, items) else s
    case DeleteIf(key, snapshot) => if Matches(s, key, snapshot) then PutFresh(s, key, true, []) else s
    case Drop(keys) => s.(cells := s.cells - keys)
  }

  /** What a read hands to the request. */
  function SnapshotOf(s: Store, key: Key): Snapshot
    requires key in s.cells
  {
    Snapshot(s.cells[key].revision, s.cells[key].branch, s.cells[key].items)
  }

  // ----- runs of many requests -----

  /** The store together with every snapshot handed out so far. */
  datatype World = World(store: Store, issued: set<(Key, Snapshot)>)

  /** Requests only use snapshots they were handed for that key, and only publish and store non-empty chains. */
  predicate Legal(w: World, e: Event) {
    match e
    case Publish(key, snapshot, items) => (key, snapshot) in w.issued && items != []
    case DeleteIf(key, snapshot) => (key, snapshot) in w.issued
    case Overwrite(_, items) => items != []
    case _ => true
  }

  function Advance(w: World, e: Event): World {
    var store := Step(w.store, e);
    World(store, if e.Read? then w.issued + {(e.key, SnapshotOf(store, e.key))} else w.issued)
  }

  function Play(w: World, events: seq<Event>): World
    decreases |events|
  {
    if events == [] then w else Play(Advance(w, events[0]), events[1..])
  }

  predicate LegalRun(w: World, events: seq<Event>)
    decreases |events|
  {
    events == [] || (Legal(w, events[0]) && LegalRun(Advance(w, events[0]), events[1..]))
  }

  /** Whether a publish or conditional delete would succeed now. */
  predicate Succeeds(s: Store, e: Event)
    requires e.Publish? || e.DeleteIf?
  {
    if e.Publish? then PublishAllowed(s, e.key, e.snapshot, e.items) else Matches(s, e.key, e.snapshot)
  }

  ghost predicate CellsOk(s: Store) {
    forall k :: k in s.cells ==>
      && 0 < s.cells[k].revision <= s.lastRevision && 0 < s.cells[k].branch <= s.lastBranch
      && (s.cells[k].deleted <==> s.cells[k].items == [])
  }

  /** A snapshot whose revision is still current describes the cell exactly; one whose branch is
      still current was extended since. */
  ghost predicate SnapshotOk(s: Store, key: Key, snapshot: Snapshot) {
    && 0 < snapshot.revision <= s.lastRevision && 0 < snapshot.branch <= s.lastBranch
    && (Matches(s, key, snapshot) ==> snapshot == SnapshotOf(s, key))
    && GrownFrom(s, key, snapshot.branch, snapshot.items)
  }

  ghost predicate Inv(w: World) {
    && CellsOk(w.store)
    && forall p :: p in w.issued ==> SnapshotOk(w.store, p.0, p.1)
  }

  /** Every step of every request keeps the invariant. */
  lemma StepKeepsInv(w: World, e: Event)
    requires Inv(w) && Legal(w, e)
    ensures Inv(Advance(w, e))
  {
    var w' := Advance(w, e);
    forall p | p in w'.issued ensures SnapshotOk(w'.store, p.0, p.1) {
      if p in w.issued {
        assert SnapshotOk(w.store, p.0, p.1);
      }
    }
  }

  // ----- reaching one state from another -----

  /** From one state to another by a legal run of the branch machine. */
  ghost predicate Reached(from: World, events: seq<Event>, to: World) {
    LegalRun(from, events) && to == Play(from, events) && Inv(to)
  }

  lemma {:induction false} ReachedMore(from: World, front: seq<Event>, mid: World, back: seq<Event>, to: World)
    requires Reached(from, front, mid) && Reached(mid, back, to)
    ensures Reached(from, front + back, to)
    decreases |front|
  {
    if front == [] {
      assert front + back == back;
    } else {
      assert (front + back)[1..] == front[1..] + back;
      ReachedMore(Advance(from, front[0]), front[1..], mid, back, to);
    }
  }

  lemma {:induction false} ReachedByPlay(from: World, events: seq<Event>)
    requires Inv(from) && LegalRun(from, events)
    ensures Reached(from, events, Play(from, events))
    decreases |events|
  {
    if events != [] {
      StepKeepsInv(from, events[0]);
      ReachedByPlay(Advance(from, events[0]), events[1..]);
    }
  }

  lemma ReachedStep(from: World, events: seq<Event>, mid: World, e: Event)
    requires Reached(from, events, mid) && Legal(mid, e)
    ensures Reached(from, events + [e], Advance(mid, e))
  {
    hide Inv, Legal, Advance;
    StepKeepsInv(mid, e);
    assert [e][1..] == [];
    assert Play(Advance(mid, e), []) == Advance(mid, e) && LegalRun(Advance(mid, e), []);
    ReachedMore(from, events, mid, [e], Advance(mid, e));
  }

  lemma {:induction false} IssuedStays(from: World, events: seq<Event>, p: (Key, Snapshot))
    requires p in from.issued
    ensures p in Play(from, events).issued
    decreases |events|
  {
    if events != [] {
      IssuedStays(Advance(from, events[0]), events[1..], p);
    }
  }

  lemma PlayNothing(w: World)
    ensures Play(w, []) == w
  {
  }

  /** A snapshot that is not current never becomes current again: revisions are only counted up. */
  lemma {:induction false} NeverAgain(from: World, events: seq<Event>, key: Key, snapshot: Snapshot)
    requires snapshot.revision <= from.store.lastRevision && !Matches(from.store, key, snapshot)
    ensures var to := Play(from, events);
            snapshot.revision <= to.store.lastRevision && !Matches(to.store, key, snapshot)
    decreases |events|
  {
    if events != [] {
      NeverAgain(Advance(from, events[0]), events[1..], key, snapshot);
    }
  }

  lemma NeverAgainReached(from: World, events: seq<Event>, to: World, key: Key, snapshot: Snapshot)
    requires Reached(from, events, to)
    requires snapshot.revision <= from.store.lastRevision && !Matches(from.store, key, snapshot)
    ensures snapshot.revision <= to.store.lastRevision && !Matches(to.store, key, snapshot)
  {
    NeverAgain(from, events, key, snapshot);
  }

  lemma IssuedFacts(w: World, key: Key, snapshot: Snapshot)
    requires Inv(w) && (key, snapshot) in w.issued
    ensures SnapshotOk(w.store, key, snapshot)
  {
  }

  lemma ReachedNothing(w: World)
    requires Inv(w)
    ensures Reached(w, [], w)
  {
  }

  lemma ReachedInv(from: World, steps: seq<Event>, to: World)
    requires Reached(from, steps, to)
    ensures Inv(to)
  {
  }

  lemma CellShape(w: World, key: Key)
    requires Inv(w) && key in w.store.cells
    ensures w.store.cells[key].deleted <==> w.store.cells[key].items == []
  {
  }

  lemma ReachedIsPlay(from: World, steps: seq<Event>, to: World)
    requires Reached(from, steps, to)
    ensures to == Play(from, steps)
  {
  }

  // ----- a branch only grows -----

  /** Whatever the key holds on branch b extends these items. */
  ghost predicate GrownFrom(s: Store, key: Key, b: nat, items: Items) {
    b <= s.lastBranch && (key in s.cells && s.cells[key].branch == b ==> items <= s.cells[key].items)
  }

  lemma StepGrows(w: World, e: Event, key: Key, b: nat, items: Items)
    requires Inv(w) && Legal(w, e) && b > 0 && GrownFrom(w.store, key, b, items)
    ensures GrownFrom(Advance(w, e).store, key, b, items)
  {
    if e.Publish? && e.key == key {
      assert SnapshotOk(w.store, key, e.snapshot);
    }
  }

  lemma {:induction false} PlayGrows(w: World, events: seq<Event>, key: Key, b: nat, items: Items)
    requires Inv(w) && LegalRun(w, events) && b > 0 && GrownFrom(w.store, key, b, items)
    ensures GrownFrom(Play(w, events).store, key, b, items)
    decreases |events|
  {
    if events != [] {
      StepKeepsInv(w, events[0]);
      StepGrows(w, events[0], key, b, items);
      PlayGrows(Advance(w, events[0]), events[1..], key, b, items);
    }
  }

  /** Over every run: as long as a key is on one branch, its item list only ever grows by prefix extension,
      even if the branch was left and the key came and went in between. */
  lemma BranchOnlyGrows(w: World, events: seq<Event>, key: Key)
    requires Inv(w) && LegalRun(w, events)
    requires key in w.store.cells && key in Play(w, events).store.cells
    requires w.store.cells[key].branch == Play(w, events).store.cells[key].branch
    ensures w.store.cells[key].items <= Play(w, events).store.cells[key].items
  {
    PlayGrows(w, events, key, w.store.cells[key].branch, w.store.cells[key].items);
  }

  // ----- stale snapshots stay stale -----

  /** No publish or delete with this snapshot can succeed: neither its revision nor its branch is there. */
  ghost predicate Dead(s: Store, key: Key, snapshot: Snapshot) {
    && snapshot.revision <= s.lastRevision && 0 < snapshot.branch <= s.lastBranch
    && (key in s.cells ==> s.cells[key].revision != snapshot.revision && s.cells[key].branch != snapshot.branch)
  }

  /** The events that end a key's history: deletion, unconditional overwrite, and anything that drops the key. */
  predicate Ends(s: Store, e: Event, key: Key) {
    match e
    case Overwrite(k, _) => k == key
    case Bury(k) => k == key
    case DeleteIf(k, snapshot) => k == key && Matches(s, k, snapshot)
    case Drop(keys) => key in keys
    case _ => false
  }

  lemma EndingKills(w: World, e: Event, key: Key, snapshot: Snapshot)
    requires Inv(w) && Legal(w, e) && Ends(w.store, e, key) && (key, snapshot) in w.issued
    ensures Dead(Advance(w, e).store, key, snapshot)
  {
    assert SnapshotOk(w.store, key, snapshot);
  }

  lemma StepKeepsDead(w: World, e: Event, key: Key, snapshot: Snapshot)
    requires Inv(w) && Legal(w, e) && Dead(w.store, key, snapshot)
    ensures Dead(Advance(w, e).store, key, snapshot)
  {
    if e.Publish? && e.key == key {
      assert SnapshotOk(w.store, key, e.snapshot);
    }
  }

  lemma {:induction false} PlayKeepsDead(w: World, events: seq<Event>, key: Key, snapshot: Snapshot)
    requires Inv(w) && LegalRun(w, events) && Dead(w.store, key, snapshot)
    ensures Inv(Play(w, events)) && Dead(Play(w, events).store, key, snapshot)
    decreases |events|
  {
    if events != [] {
      StepKeepsInv(w, events[0]);
      StepKeepsDead(w, events[0], key, snapshot);
      PlayKeepsDead(Advance(w, events[0]), events[1..], key, snapshot);
    }
  }

  /** Once a key's entry is deleted, overwritten unconditionally, evicted, expired or cleared, no publish or
      delete with a snapshot read before that moment succeeds, in any later state of any run. */
  lemma StaleNeverSucceeds(w: World, e: Event, events: seq<Event>, key: Key, snapshot: Snapshot, attempt: Event)
    requires Inv(w) && Legal(w, e) && Ends(w.store, e, key) && (key, snapshot) in w.issued
    requires LegalRun(Advance(w, e), events)
    requires (attempt.Publish? || attempt.DeleteIf?) && attempt.key == key && attempt.snapshot == snapshot
    ensures !Succeeds(Play(Advance(w, e), events).store, attempt)
  {
    StepKeepsInv(w, e);
    EndingKills(w, e, key, snapshot);
    PlayKeepsDead(Advance(w, e), events, key, snapshot);
  }

  /** A publish that succeeds either replaces exactly what its snapshot read or extends what is there now;
      the new chain stays on the branch iff it extends both, and is otherwise the start of a fresh branch. */
  lemma SuccessIsFaithful(w: World, key: Key, snapshot: Snapshot, items: Items)
    requires Inv(w) && (key, snapshot) in w.issued && PublishAllowed(w.store, key, snapshot, items)
    ensures snapshot == SnapshotOf(w.store, key)
            || (w.store.cells[key].branch == snapshot.branch && snapshot.items <= w.store.cells[key].items <= items)
    ensures var after := Step(w.store, Publish(key, snapshot, items)).cells[key];
            && after.items == items && !after.deleted
            && after.branch == (if snapshot.items <= items then w.store.cells[key].branch else w.store.lastBranch + 1)
            && (snapshot.items <= items <==> w.store.cells[key].items <= items)
  {
    assert SnapshotOk(w.store, key, snapshot);
  }

  /** The same for operations that began and ended in known states: whatever was reached since the key's history
      ended, an operation with a snapshot from before can neither publish nor delete there. */
  lemma StaleOperationFails(w: World, e: Event, steps: seq<Event>, now: World, key: Key, snapshot: Snapshot, items: Items)
    requires Inv(w) && Legal(w, e) && Ends(w.store, e, key) && (key, snapshot) in w.issued
    requires Reached(Advance(w, e), steps, now)
    ensures !PublishAllowed(now.store, key, snapshot, items) && !Matches(now.store, key, snapshot)
  {
    hide Inv, Ends, Dead, LegalRun, Play, PublishAllowed, Matches;
    ReachedIsPlay(Advance(w, e), steps, now);
    ReachedIsRun(Advance(w, e), steps, now);
    StaleNeverSucceeds(w, e, steps, key, snapshot, Publish(key, snapshot, items));
    StaleNeverSucceeds(w, e, steps, key, snapshot, DeleteIf(key, snapshot));
  }

  lemma ReachedIsRun(from: World, steps: seq<Event>, to: World)
    requires Reached(from, steps, to)
    ensures LegalRun(from, steps)
  {
  }
}
