/** The network between a cache and the remote store: what happens to each operation, and what others do before it
    arrives. */
module Transport {

  /** The operation is carried out, refused, or carried out but its answer is lost. */
  datatype Fault = Fine | Refused | Unanswered

  /** What happens to one operation: steps of others (E) first, then its fate. */
  datatype Turn<+E> = Turn(others: seq<E>, fault: Fault)

  /** The fate of the i-th operation; behind the end of the script nothing happens any more. */
  function FaultAt<E>(script: seq<Turn<E>>, i: nat): Fault {
    if i < |script| then script[i].fault else Fine
  }

  predicate Disturbed<E>(script: seq<Turn<E>>, i: nat) {
    i < |script| && |script[i].others| > 0
  }

  /** One of these operations was not carried out and answered. */
  predicate FaultIn<E>(script: seq<Turn<E>>, from: nat, to: nat) {
    exists i :: from <= i < to && FaultAt(script, i) != Fine
  }

  /** From here on every operation is carried out and answered, and no one else does anything. */
  predicate Calm<E>(script: seq<Turn<E>>, from: nat) {
    forall i :: from <= i < |script| ==> FaultAt(script, i) == Fine && !Disturbed(script, i)
  }

  lemma CalmAt<E>(script: seq<Turn<E>>, from: nat, i: nat)
    requires Calm(script, from) && from <= i
    ensures FaultAt(script, i) == Fine && !Disturbed(script, i)
  {
  }

  lemma CalmHasNoFault<E>(script: seq<Turn<E>>, from: nat)
    requires Calm(script, from)
    ensures forall to :: !FaultIn(script, from, to)
  {
    forall to ensures !FaultIn(script, from, to) {
      forall i | from <= i < to ensures FaultAt(script, i) == Fine {
        CalmAt(script, from, i);
      }
    }
  }

  lemma FaultThere<E>(script: seq<Turn<E>>, from: nat, i: nat, to: nat)
    requires from <= i < to && FaultAt(script, i) != Fine
    ensures FaultIn(script, from, to)
  {
  }

  lemma FaultLater<E>(script: seq<Turn<E>>, from: nat, later: nat, to: nat)
    requires from <= later && FaultIn(script, later, to)
    ensures FaultIn(script, from, to)
  {
  }
}
