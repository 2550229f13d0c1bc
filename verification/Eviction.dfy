/** Choosing the oldest entries of a replay cache, as every in-process cache of the package does. */
module Eviction {

  /** The `count` oldest keys: everything chosen is at least as old as everything kept.  Ties may go either way. */
  ghost predicate OldestBatch<K(!new)>(stamps: map<K, int>, count: nat, victims: set<K>) {
    && victims <= stamps.Keys
    && |victims| == (if count < |stamps| then count else |stamps|)
    && forall v, k :: v in victims && k in stamps && k !in victims ==> stamps[v] <= stamps[k]
  }

  ghost predicate Oldest<K(!new)>(stamps: map<K, int>, keys: set<K>, k: K)
    requires keys <= stamps.Keys
  {
    k in keys && forall j :: j in keys ==> stamps[k] <= stamps[j]
  }

  lemma OldestExists<K(!new)>(stamps: map<K, int>, keys: set<K>)
    requires keys <= stamps.Keys && keys != {}
    ensures exists k :: Oldest(stamps, keys, k)
  {
    var k :| k in keys;
    var rest := keys - {k};
    if rest == {} {
      assert keys == {k};
      assert Oldest(stamps, keys, k);
    } else {
      OldestExists(stamps, rest);
      var m :| Oldest(stamps, rest, m);
      assert keys == rest + {k};
      assert Oldest(stamps, keys, if stamps[k] <= stamps[m] then k else m);
    }
  }

  lemma Partition<K>(all: set<K>, part: set<K>)
    requires part <= all
    ensures |all| == |part| + |all - part|
  {
    assert all == part + (all - part);
  }

  function SetOf<K(==)>(keys: seq<K>): set<K> {
    set k | k in keys
  }

  lemma SetOfNone<K>()
    ensures SetOf<K>([]) == {}
  {
  }

  lemma SetOfSnoc<K>(keys: seq<K>, k: K)
    ensures SetOf(keys + [k]) == SetOf(keys) + {k}
  {
  }

  lemma SetOfNext<K>(keys: seq<K>, i: nat)
    requires i < |keys|
    ensures SetOf(keys[..i + 1]) == SetOf(keys[..i]) + {keys[i]}
  {
    assert keys[..i + 1] == keys[..i] + [keys[i]];
    SetOfSnoc(keys[..i], keys[i]);
  }

  /** The first `count` candidates in timestamp order. */
  method OldestKeys<K(!new, ==)>(stamps: map<K, int>, count: nat) returns (victims: seq<K>)
    ensures OldestBatch(stamps, count, SetOf(victims)) && |victims| == |SetOf(victims)|
  {
    hide SetOf;
    SetOfNone<K>();
    victims := [];
    ghost var chosen: set<K> := {};
    var rest := stamps.Keys;
    while |victims| < count && rest != {}
      invariant |victims| <= count && |victims| == |chosen| && chosen <= stamps.Keys
      invariant rest == stamps.Keys - chosen
      invariant chosen == SetOf(victims)
      invariant forall v, k :: v in chosen && k in rest ==> stamps[v] <= stamps[k]
      decreases count - |victims|
    {
      OldestExists(stamps, rest);
      var oldest :| oldest in rest && forall k :: k in rest ==> stamps[oldest] <= stamps[k];
      SetOfSnoc(victims, oldest);
      victims, chosen := victims + [oldest], chosen + {oldest};
      rest := rest - {oldest};
    }
    Partition(stamps.Keys, chosen);
  }
}
