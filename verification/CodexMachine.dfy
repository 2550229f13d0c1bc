/** Any number of Codex appenders at once: each reads the stored list, appends its turn to what it read, and swaps
    against it.  Reads and swaps of different requests interleave freely; the swap compares plain lists. */
module CodexMachine {
  import opened Bytes
  import opened ReplayItems
  import CR = CodexReplay

  type Request = nat

  /** The stored list, what every request in flight has read, and the turns of the successful swaps in their order. */
  datatype State = State(value: Option<Items>, seen: map<Request, Option<Items>>, log: seq<Items>)

  const EMPTY: State := State(None, map[], [])

  datatype Event = Read(request: Request) | Swap(request: Request, turn: Items)

  predicate Enabled(s: State, e: Event) {
    e.Swap? ==> e.request in s.seen
  }

  function Existing(stored: Option<Items>): Items {
    if stored.Some? then stored.value else []
  }

  /** Whether a swap finds the list its request has read. */
  predicate Succeeds(s: State, e: Event)
    requires Enabled(s, e)
  {
    e.Swap? && s.value == s.seen[e.request]
  }

  ghost function Step(json: CR.Json, s: State, e: Event): State
    requires Enabled(s, e)
  {
    match e
    case Read(request) => s.(seen := s.seen[request := s.value])
    case Swap(request, turn) =>
      if Succeeds(s, e)
      then State(Some(CR.Appended(json, Existing(s.seen[request]), turn)), s.seen - {request}, s.log + [turn])
      else s.(seen := s.seen - {request})
  }

  /** The turns landed so far, folded through the append function in the order of their swaps. */
  ghost function Folded(json: CR.Json, log: seq<Items>): Option<Items> {
    if log == [] then None
    else Some(CR.Appended(json, Existing(Folded(json, log[..|log| - 1])), log[|log| - 1]))
  }

  lemma FoldedSnoc(json: CR.Json, log: seq<Items>, turn: Items)
    ensures Folded(json, log + [turn]) == Some(CR.Appended(json, Existing(Folded(json, log)), turn))
  {
    assert (log + [turn])[..|log|] == log;
  }

  /** No successful swap has overwritten another one's turn. */
  ghost predicate Inv(json: CR.Json, s: State) {
    s.value == Folded(json, s.log)
  }

  lemma StepKeepsInv(json: CR.Json, s: State, e: Event)
    requires Inv(json, s) && Enabled(s, e)
    ensures Inv(json, Step(json, s, e))
  {
    hide CR.Appended;
    if e.Swap? {
      FoldedSnoc(json, s.log, e.turn);
    }
  }

  ghost predicate Runs(json: CR.Json, s: State, events: seq<Event>)
    decreases |events|
  {
    events == [] || (Enabled(s, events[0]) && Runs(json, Step(json, s, events[0]), events[1..]))
  }

  ghost function After(json: CR.Json, s: State, events: seq<Event>): State
    requires Runs(json, s, events)
    decreases |events|
  {
    if events == [] then s else After(json, Step(json, s, events[0]), events[1..])
  }

  /** The turns whose swaps succeed in a run, in order. */
  ghost function Winners(json: CR.Json, s: State, events: seq<Event>): seq<Items>
    requires Runs(json, s, events)
    decreases |events|
  {
    if events == [] then []
    else (if Succeeds(s, events[0]) then [events[0].turn] else []) + Winners(json, Step(json, s, events[0]), events[1..])
  }

  /** In every interleaving of any number of requests the stored list is the successful turns, folded in swap order. */
  lemma {:induction false} StoredIsFold(json: CR.Json, s: State, events: seq<Event>)
    requires Inv(json, s) && Runs(json, s, events)
    ensures var t := After(json, s, events);
            && t.log == s.log + Winners(json, s, events)
            && t.value == Folded(json, s.log + Winners(json, s, events))
    decreases |events|
  {
    hide CR.Appended, Folded;
    if events == [] {
      assert s.log + [] == s.log;
    } else {
      var next := Step(json, s, events[0]);
      StepKeepsInv(json, s, events[0]);
      StoredIsFold(json, next, events[1..]);
      var first := if Succeeds(s, events[0]) then [events[0].turn] else [];
      assert next.log == s.log + first;
      assert (s.log + first) + Winners(json, next, events[1..]) == s.log + (first + Winners(json, next, events[1..]));
    }
  }
}
