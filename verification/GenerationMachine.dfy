/** The protocol behind the Claude and Kimi thinking-replay caches: a slot per key with a generation that is
    never drawn twice; publishing and conditional deletion demand that the generation read is still there. */
module GenerationMachine {
  import opened Bytes

  type Key = string

  /** A tombstone reserves a key; C is what one session stores (one content array, or a list of them). */
  datatype Slot<+C> = Live(generation: nat, content: C) | Tomb(generation: nat)

  datatype Store<+C> = Store(slots: map<Key, Slot<C>>, lastGeneration: nat)

  datatype Event<+C> =
    | Read(key: Key)
    | Overwrite(key: Key, content: C)
    | Publish(key: Key, generation: nat, content: C)
    | DeleteIf(key: Key, generation: nat)
    | Drop(keys: set<Key>)

  function PutLive<C>(s: Store<C>, key: Key, content: C): Store<C> {
    Store(s.slots[key := Live(s.lastGeneration + 1, content)], s.lastGeneration + 1)
  }

  function PutTomb<C>(s: Store<C>, key: Key): Store<C> {
    Store(s.slots[key := Tomb(s.lastGeneration + 1)], s.lastGeneration + 1)
  }

  predicate Matches<C>(s: Store<C>, key: Key, generation: nat) {
    key in s.slots && s.slots[key].generation == generation
  }

  function Step<C>(s: Store<C>, e: Event<C>): Store<C> {
    match e
    case Read(key) => if key in s.slots then s else PutTomb(s, key)
    case Overwrite(key, content) => PutLive(s, key, content)
    case Publish(key, generation, content) => if Matches(s, key, generation) then PutLive(s, key, content) else s
    case DeleteIf(key, generation) => if Matches(s, key, generation) then PutTomb(s, key) else s
    case Drop(keys) => s.(slots := s.slots - keys)
  }

  // ----- runs of many requests -----

  /** The store and every slot a request was handed, by key. */
  datatype World<C(==)> = World(store: Store<C>, issued: set<(Key, Slot<C>)>)

  ghost function Advance<C>(w: World<C>, e: Event<C>): World<C> {
    var store := Step(w.store, e);
    World(store, if e.Read? then w.issued + {(e.key, store.slots[e.key])} else w.issued)
  }

  ghost function Play<C>(w: World<C>, events: seq<Event<C>>): World<C>
    decreases |events|
  {
    if events == [] then w else Play(Advance(w, events[0]), events[1..])
  }

  lemma {:induction false} PlayConcat<C>(w: World<C>, front: seq<Event<C>>, back: seq<Event<C>>)
    ensures Play(w, front + back) == Play(Play(w, front), back)
    decreases |front|
  {
    if front == [] {
      assert front + back == back;
    } else {
      assert (front + back)[1..] == front[1..] + back;
      PlayConcat(Advance(w, front[0]), front[1..], back);
    }
  }

  lemma PlayOne<C>(w: World<C>, e: Event<C>)
    ensures Play(w, [e]) == Advance(w, e)
  {
    assert [e][1..] == [];
    assert Play(Advance(w, e), []) == Advance(w, e);
  }

  lemma PlayTwo<C>(w: World<C>, e: Event<C>, f: Event<C>)
    ensures Play(w, [e, f]) == Advance(Advance(w, e), f)
  {
    assert [e, f] == [e] + [f];
    PlayConcat(w, [e], [f]);
    PlayOne(w, e);
    PlayOne(Advance(w, e), f);
  }

  ghost predicate SlotOk<C>(s: Store<C>, key: Key, read: Slot<C>) {
    read.generation <= s.lastGeneration && (Matches(s, key, read.generation) ==> s.slots[key] == read)
  }

  ghost predicate Inv<C(!new)>(w: World<C>) {
    && (forall k :: k in w.store.slots ==> w.store.slots[k].generation <= w.store.lastGeneration)
    && (forall p :: p in w.issued ==> SlotOk(w.store, p.0, p.1))
  }

  lemma StepKeepsInv<C(!new)>(w: World<C>, e: Event<C>)
    requires Inv(w)
    ensures Inv(Advance(w, e))
  {
    var after := Advance(w, e);
    forall p | p in after.issued ensures SlotOk(after.store, p.0, p.1) {
      if p in w.issued {
        assert SlotOk(w.store, p.0, p.1);
      }
    }
  }

  lemma {:induction false} PlayKeepsInv<C(!new)>(w: World<C>, events: seq<Event<C>>)
    requires Inv(w)
    ensures Inv(Play(w, events))
    decreases |events|
  {
    if events != [] {
      StepKeepsInv(w, events[0]);
      PlayKeepsInv(Advance(w, events[0]), events[1..]);
    }
  }

  /** When a publish or conditional delete succeeds, the slot was exactly what its snapshot had read:
      no one had touched it, whatever happened in between. */
  lemma SuccessSeesSnapshot<C(!new)>(w: World<C>, events: seq<Event<C>>, key: Key, read: Slot<C>)
    requires Inv(w) && (key, read) in w.issued
    requires Matches(Play(w, events).store, key, read.generation)
    ensures Play(w, events).store.slots[key] == read
  {
    PlayKeepsInv(w, events);
    IssuedStays(w, events, (key, read));
    assert SlotOk(Play(w, events).store, key, read);
  }

  lemma {:induction false} IssuedStays<C>(w: World<C>, events: seq<Event<C>>, p: (Key, Slot<C>))
    requires p in w.issued
    ensures p in Play(w, events).issued
    decreases |events|
  {
    if events != [] {
      IssuedStays(Advance(w, events[0]), events[1..], p);
    }
  }

  // ----- at most one success per generation -----

  predicate Attempts<C>(e: Event<C>, key: Key, generation: nat) {
    (e.Publish? || e.DeleteIf?) && e.key == key && e.generation == generation
  }

  /** How many of the attempts with this generation succeed in a run. */
  ghost function Successes<C>(w: World<C>, events: seq<Event<C>>, key: Key, generation: nat): nat
    decreases |events|
  {
    if events == [] then 0
    else (if Attempts(events[0], key, generation) && Matches(w.store, key, generation) then 1 else 0)
         + Successes(Advance(w, events[0]), events[1..], key, generation)
  }

  ghost predicate Spent<C>(s: Store<C>, key: Key, generation: nat) {
    generation <= s.lastGeneration && !Matches(s, key, generation)
  }

  lemma {:induction false} SpentStays<C(!new)>(w: World<C>, events: seq<Event<C>>, key: Key, generation: nat)
    requires Spent(w.store, key, generation)
    ensures Spent(Play(w, events).store, key, generation) && Successes(w, events, key, generation) == 0
    decreases |events|
  {
    if events != [] {
      SpentStays(Advance(w, events[0]), events[1..], key, generation);
    }
  }

  /** Of all publishes and conditional deletes with the same generation, at most one succeeds in any run. */
  lemma {:induction false} AtMostOneSucceeds<C(!new)>(w: World<C>, events: seq<Event<C>>, key: Key, generation: nat)
    requires Inv(w)
    ensures Successes(w, events, key, generation) <= 1
    decreases |events|
  {
    if events != [] {
      StepKeepsInv(w, events[0]);
      var after := Advance(w, events[0]);
      if Attempts(events[0], key, generation) && Matches(w.store, key, generation) {
        SpentStays(after, events[1..], key, generation);
      } else {
        AtMostOneSucceeds(after, events[1..], key, generation);
      }
    }
  }

  /** Said of any two of them: the later one finds another generation if the earlier one succeeded. */
  lemma TwoNeverSucceed<C(!new)>(w: World<C>, events: seq<Event<C>>, i: nat, j: nat, key: Key, generation: nat)
    requires Inv(w) && i < j < |events|
    requires (events[i].Publish? || events[i].DeleteIf?) && events[i].key == key && events[i].generation == generation
    ensures Matches(Play(w, events[..i]).store, key, generation) ==> !Matches(Play(w, events[..j]).store, key, generation)
  {
    var before := Play(w, events[..i]);
    PlayKeepsInv(w, events[..i]);
    if Matches(before.store, key, generation) {
      var after := Advance(before, events[i]);
      SpentStays(after, events[i + 1..j], key, generation);
      assert events[..j] == events[..i] + ([events[i]] + events[i + 1..j]);
      PlayConcat(w, events[..i], [events[i]] + events[i + 1..j]);
      PlayConcat(before, [events[i]], events[i + 1..j]);
      PlayOne(before, events[i]);
    }
  }

  /** None succeeds once the key was overwritten, dropped or deleted in between. */
  lemma NoneAfterLoss<C(!new)>(w: World<C>, e: Event<C>, events: seq<Event<C>>, key: Key, read: Slot<C>)
    requires Inv(w) && (key, read) in w.issued
    requires match e case Overwrite(k, _) => k == key case Drop(keys) => key in keys case _ => false
    ensures Successes(Advance(w, e), events, key, read.generation) == 0
  {
    assert SlotOk(w.store, key, read);
    SpentStays(Advance(w, e), events, key, read.generation);
  }

  // ----- the remote form -----

  /** One compare-and-swap against the whole value read: the remote form of a publish (next = Live) or of a
      conditional delete (next = None). */
  ghost function SwapRaw<C>(s: Store<C>, key: Key, raw: Slot<C>, next: Option<C>): Store<C> {
    if key in s.slots && s.slots[key] == raw
    then (if next.Some? then PutLive(s, key, next.value) else PutTomb(s, key))
    else s
  }

  /** Comparing whole values is comparing generations, so the remote form is the local one. */
  lemma RawSwapIsGenerationSwap<C(!new)>(w: World<C>, key: Key, raw: Slot<C>, next: Option<C>)
    requires Inv(w) && (key, raw) in w.issued
    ensures SwapRaw(w.store, key, raw, next) ==
            Step(w.store, if next.Some? then Publish(key, raw.generation, next.value) else DeleteIf(key, raw.generation))
  {
    assert SlotOk(w.store, key, raw);
  }
}
