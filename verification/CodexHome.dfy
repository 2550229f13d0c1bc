/** The remote form of the Codex append: read, append, compare-and-swap, up to 32 times, while other appenders
    do the same.  The swap compares plain lists; there is no generation. */
module CodexHome {
  import opened Bytes
  import opened ReplayItems
  import opened CodexMachine
  import opened Transport
  import CR = CodexReplay

  const MAX_CAS_ATTEMPTS: nat := 32

  class HomeStore {
    const json: CR.Json
    const script: seq<Turn<Event>>
    var turn: nat
    var value: Option<Items>
    var seen: map<Request, Option<Items>>   // what other requests in flight have read
    ghost var log: seq<Items>

    ghost function Abstract(): State
      reads this
    {
      State(value, seen, log)
    }

    ghost predicate Valid()
      reads this
    {
      Inv(json, Abstract())
    }

    constructor (json: CR.Json, script: seq<Turn<Event>>)
      ensures Valid() && log == [] && this.json == json && this.script == script
    {
      this.json, this.script, turn, value, seen, log := json, script, 0, None, map[], [];
    }

    /** One read or swap of another request. */
    method OtherStep(e: Event) returns (ghost landed: seq<Items>)
      requires Valid() && Enabled(Abstract(), e)
      modifies this
      ensures Valid() && Abstract() == Step(json, old(Abstract()), e) && turn == old(turn)
      ensures landed == (if Succeeds(old(Abstract()), e) then [e.turn] else []) && log == old(log) + landed
    {
      hide CR.Appended, Folded;
      StepKeepsInv(json, Abstract(), e);
      landed := [];
      if e.Read? {
        seen := seen[e.request := value];
      } else {
        if value == seen[e.request] {
          var combined := CR.AppendTurn(json, Existing(seen[e.request]), e.turn);
          value := Some(combined);
          log := log + [e.turn];
          landed := [e.turn];
        }
        seen := seen - {e.request};
      }
    }

    /** Let the others move; `landed` are the turns of their successful swaps. */
    method Others() returns (fault: Fault, ghost landed: seq<Items>)
      requires Valid()
      modifies this
      ensures Valid() && log == old(log) + landed
      ensures turn == old(turn) + 1 && fault == FaultAt(script, old(turn))
      ensures !Disturbed(script, old(turn)) ==> landed == [] && Abstract() == old(Abstract())
    {
      hide CR.Appended, Folded, Step, Inv;
      fault, landed := Fine, [];
      if turn < |script| {
        fault := script[turn].fault;
        var others := script[turn].others;
        for i := 0 to |others|
          invariant Valid() && log == old(log) + landed && turn == old(turn)
          invariant i == 0 ==> landed == [] && Abstract() == old(Abstract())
        {
          if others[i].Read? || others[i].request in seen {
            ghost var more := OtherStep(others[i]);
            landed := landed + more;
          }
        }
      }
      turn := turn + 1;
    }

    method KVGet() returns (raw: Option<Items>, failed: bool, ghost landed: seq<Items>)
      requires Valid()
      modifies this
      ensures Valid() && log == old(log) + landed
      ensures !failed ==> raw == value
      ensures turn == old(turn) + 1 && (failed <==> FaultAt(script, old(turn)) != Fine)
      ensures !Disturbed(script, old(turn)) ==> landed == []
    {
      var fault;
      fault, landed := Others();
      raw, failed := value, fault != Fine;
    }

    /** Replace the list if it equals the expected one.  When it lands, and the new list is the expected one with a
        turn appended, then that turn is appended to what is stored, whoever wrote it: equal lists append equally. */
    method KVCompareAndSwap(expected: Option<Items>, combined: Items, ghost mine: Items)
      returns (swapped: bool, failed: bool, ghost others: seq<Items>, ghost landed: bool)
      requires Valid() && combined == CR.Appended(json, Existing(expected), mine)
      modifies this
      ensures Valid() && log == old(log) + others + (if landed then [mine] else [])
      ensures !failed ==> (swapped <==> Folded(json, old(log) + others) == expected)
      ensures swapped <==> landed && !failed
      ensures landed <==> FaultAt(script, old(turn)) != Refused && Folded(json, old(log) + others) == expected
      ensures turn == old(turn) + 1 && (failed <==> FaultAt(script, old(turn)) != Fine)
      ensures !Disturbed(script, old(turn)) ==> others == []
      ensures !Disturbed(script, old(turn)) && !failed && old(value) == expected ==> swapped
    {
      hide CR.Appended, Folded;
      var fault;
      fault, others := Others();
      swapped, failed, landed := false, fault != Fine, false;
      if fault != Refused && value == expected {
        FoldedSnoc(json, log, mine);
        value := Some(combined);
        log := log + [mine];
        swapped, landed := !failed, true;
      }
    }
  }

  /** AppendCodexReasoningReplayItemsBestEffort, remote form, for a normalized turn.  Success means that exactly this
      turn was appended, once, after everything others landed; without success and without a transport
      failure nothing was.  With no one else moving the first attempt succeeds. */
  method AppendNormalized(kv: HomeStore, normalized: Items)
    returns (ok: bool, failed: bool, ghost others: seq<Items>, ghost landed: bool)
    requires kv.Valid()
    modifies kv
    ensures kv.Valid() && kv.log == old(kv.log) + others + (if landed then [normalized] else [])
    ensures ok ==> landed
    ensures !failed ==> (ok <==> landed)
    ensures !failed && others == [] ==> ok
    ensures failed ==> FaultIn(kv.script, old(kv.turn), kv.turn)
    ensures !failed && !ok ==> forall k :: 0 <= k < MAX_CAS_ATTEMPTS ==> Disturbed(kv.script, old(kv.turn) + 2 * k + 1)
    ensures Calm(kv.script, old(kv.turn)) ==> ok && !failed && others == []
  {
    hide FaultAt, Disturbed, FaultIn, Calm, Inv;
    ghost var began := kv.turn;
    ok, failed, others, landed := false, false, [], false;
    for attempt := 0 to MAX_CAS_ATTEMPTS
      invariant kv.Valid() && kv.log == old(kv.log) + others && !ok && !failed && !landed
      invariant attempt == 0 <==> others == []
      invariant kv.turn == began + 2 * attempt && (Calm(kv.script, began) ==> attempt == 0)
      invariant forall k :: 0 <= k < attempt ==> Disturbed(kv.script, began + 2 * k + 1)
    {
      ghost var more, here := [], kv.turn;
      ok, failed, more, landed := TryAppend(kv, normalized);
      others := others + more;
      if failed {
        FaultLater(kv.script, began, here, kv.turn);
      }
      if failed || ok {
        return;
      }
    }
  }

  /** One round: read, append, swap. */
  method TryAppend(kv: HomeStore, normalized: Items)
    returns (ok: bool, failed: bool, ghost others: seq<Items>, ghost landed: bool)
    requires kv.Valid()
    modifies kv
    ensures kv.Valid() && kv.log == old(kv.log) + others + (if landed then [normalized] else [])
    ensures (ok ==> landed) && (!failed ==> (ok <==> landed)) && (!failed && others == [] ==> ok)
    ensures failed ==> FaultIn(kv.script, old(kv.turn), kv.turn)
    ensures !failed && !ok ==> kv.turn == old(kv.turn) + 2 && Disturbed(kv.script, old(kv.turn) + 1)
    ensures Calm(kv.script, old(kv.turn)) ==> ok && !failed && others == []
  {
    hide CR.Appended, Folded, FaultAt, Disturbed, FaultIn, Calm;
    ok, landed := false, false;
    ghost var more, here := [], kv.turn;
    if Calm(kv.script, here) {
      CalmAt(kv.script, here, here);
      CalmAt(kv.script, here, here + 1);
    }
    var existing;
    existing, failed, others := kv.KVGet();
    if failed {
      FaultThere(kv.script, here, here, kv.turn);
      return;
    }
    var combined := CR.AppendTurn(kv.json, Existing(existing), normalized);
    ok, failed, more, landed := kv.KVCompareAndSwap(existing, combined, normalized);
    assert old(kv.log) + others + [] == old(kv.log) + others;
    others := others + more;
    if failed {
      FaultThere(kv.script, here, here + 1, kv.turn);
    }
  }

  /** The whole call: an empty key or nothing worth storing changes nothing. */
  method AppendItems(kv: HomeStore, key: CR.Key, items: Items)
    returns (ok: bool, failed: bool, ghost others: seq<Items>, ghost landed: bool)
    requires kv.Valid()
    modifies kv
    ensures kv.Valid()
    ensures kv.log == old(kv.log) + others + (if landed then [CR.Normalized(kv.json, items)] else [])
    ensures key == "" || CR.Normalized(kv.json, items) == [] ==> !ok && !landed && others == []
    ensures key != "" && CR.Normalized(kv.json, items) != [] && !failed ==> (ok <==> landed) && (others == [] ==> ok)
    ensures failed ==> FaultIn(kv.script, old(kv.turn), kv.turn)
    ensures key != "" && CR.Normalized(kv.json, items) != [] && !failed && !ok ==>
              forall k :: 0 <= k < MAX_CAS_ATTEMPTS ==> Disturbed(kv.script, old(kv.turn) + 2 * k + 1)
    ensures Calm(kv.script, old(kv.turn)) ==>
              !failed && others == [] && (ok <==> key != "" && CR.Normalized(kv.json, items) != [])
  {
    hide CR.Normalized, CR.Fits, FaultAt, Disturbed, FaultIn, Calm;
    ok, failed, others, landed := false, false, [], false;
    if key == "" {
      return;
    }
    var normalized, okNormalize := CR.NormalizeItems(kv.json, items);
    if !okNormalize {
      return;
    }
    ok, failed, others, landed := AppendNormalized(kv, normalized);
  }

  // ----- what the fold means -----

  function Concat(turns: seq<Items>): Items {
    if turns == [] then [] else Concat(turns[..|turns| - 1]) + turns[|turns| - 1]
  }

  /** The turns carry markers with ids none of which occurs before. */
  ghost predicate NewIds(json: CR.Json, log: seq<Items>) {
    forall i :: 0 <= i < |log| ==>
      CR.IsTurn(json, log[i]) && !CR.HasTurn(json, Concat(log[..i]), CR.TurnId(json, log[i]))
  }

  /** As long as everything fits, the stored list is all successful turns one after the other. */
  lemma {:induction false} NothingIsLost(json: CR.Json, log: seq<Items>)
    requires log != [] && NewIds(json, log)
    requires forall i :: 0 <= i <= |log| ==> CR.Fits(json, Concat(log[..i]))
    ensures Folded(json, log) == Some(Concat(log)) && Concat(log) != [] && CR.IsMarker(json, Concat(log)[0])
    decreases |log|
  {
    hide CR.Fits, CR.Appended, CR.HasTurn;
    var front, last := log[..|log| - 1], log[|log| - 1];
    assert log[..|log|] == log;
    FoldedSnoc(json, front, last);
    assert front + [last] == log;
    if front == [] {
      assert Concat(front) == [];
    } else {
      forall i | 0 <= i <= |front| ensures CR.Fits(json, Concat(front[..i])) {
        assert front[..i] == log[..i];
      }
      forall i | 0 <= i < |front| ensures CR.IsTurn(json, front[i]) && !CR.HasTurn(json, Concat(front[..i]), CR.TurnId(json, front[i])) {
        assert front[..i] == log[..i] && front[i] == log[i];
      }
      NothingIsLost(json, front);
    }
    CR.FittingAppendIsConcat(json, Concat(front), last);
  }
}
