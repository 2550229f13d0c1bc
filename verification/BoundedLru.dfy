/** The bounded LRU cache, tied to the whole history of its uses. */
module BoundedLru {
  import opened Bytes

  datatype Entry<+K, +V> = Entry(key: K, value: V)

  // ----- what recency means -----

  function Without<K(==)>(s: seq<K>, k: K): seq<K> {
    if s == [] then [] else if s[0] == k then Without(s[1..], k) else [s[0]] + Without(s[1..], k)
  }

  /** The distinct keys of a history read backwards. */
  function Recent<K(==)>(history: seq<K>): seq<K> {
    if history == [] then []
    else
      var last := history[|history| - 1];
      [last] + Without(Recent(history[..|history| - 1]), last)
  }

  function Take<T>(s: seq<T>, n: nat): seq<T> {
    if |s| <= n then s else s[..n]
  }

  /** The time of the last use of a key; -1 when it was never used. */
  function LastUse<K(==)>(history: seq<K>, k: K): int {
    if history == [] then -1
    else if history[|history| - 1] == k then |history| - 1 else LastUse(history[..|history| - 1], k)
  }

  ghost predicate Distinct<K>(s: seq<K>) {
    forall i, j :: 0 <= i < j < |s| ==> s[i] != s[j]
  }

  lemma DistinctCons<K>(x: K, s: seq<K>)
    ensures Distinct([x] + s) <==> Distinct(s) && x !in s
  {
    var t := [x] + s;
    if Distinct(t) {
      forall i, j | 0 <= i < j < |s| ensures s[i] != s[j] {
        assert t[i + 1] == s[i] && t[j + 1] == s[j];
      }
      forall i | 0 <= i < |s| ensures s[i] != x {
        assert t[0] == x && t[i + 1] == s[i];
      }
    }
  }

  lemma {:induction false} WithoutFacts<K>(s: seq<K>, k: K)
    ensures forall x :: x in Without(s, k) <==> x in s && x != k
    ensures Distinct(s) ==> Distinct(Without(s, k)) && |Without(s, k)| == |s| - (if k in s then 1 else 0)
  {
    if s != [] {
      WithoutFacts(s[1..], k);
      assert s == [s[0]] + s[1..];
      DistinctCons(s[0], s[1..]);
      DistinctCons(s[0], Without(s[1..], k));
    }
  }

  lemma {:induction false} WithoutAbsent<K>(s: seq<K>, k: K)
    requires k !in s
    ensures Without(s, k) == s
  {
    if s != [] {
      WithoutAbsent(s[1..], k);
    }
  }

  lemma WithoutCons<K>(x: K, s: seq<K>, k: K)
    ensures Without([x] + s, k) == if x == k then Without(s, k) else [x] + Without(s, k)
  {
    assert ([x] + s)[1..] == s;
  }

  lemma TakeCons<K>(x: K, s: seq<K>, n: nat)
    requires n > 0
    ensures Take([x] + s, n) == [x] + Take(s, n - 1)
  {
  }

  /** Removing the key and keeping the first entries commute, but for the place the key gives up. */
  lemma {:induction false} WithoutTake<K>(s: seq<K>, k: K, n: nat)
    requires Distinct(s)
    ensures k in Take(s, n) ==> Without(Take(s, n), k) == Take(Without(s, k), n - 1)
    ensures k !in Take(s, n) ==> Take(s, n) == Take(Without(s, k), n)
  {
    if s != [] && n > 0 {
      hide Without, Take, Distinct;
      var x, t := s[0], s[1..];
      assert s == [x] + t;
      DistinctCons(x, t);
      TakeCons(x, t, n);
      WithoutCons(x, t, k);
      WithoutCons(x, Take(t, n - 1), k);
      if x == k {
        WithoutAbsent(t, k);
        TakeWithin(t, n - 1);
        WithoutAbsent(Take(t, n - 1), k);
      } else {
        WithoutTake(t, k, n - 1);
        TakeCons(x, Without(t, k), n);
        TakeWithin(t, n - 1);
        if k in Take(t, n - 1) {
          TakeCons(x, Without(t, k), n - 1);
        }
      }
    }
  }

  lemma TakeWithin<K>(s: seq<K>, n: nat)
    ensures forall x :: x in Take(s, n) ==> x in s
    ensures n == 0 ==> Take(s, n) == []
  {
  }

  lemma {:induction false} RecentIsDistinct<K>(history: seq<K>)
    ensures Distinct(Recent(history))
  {
    if history != [] {
      RecentIsDistinct(history[..|history| - 1]);
      WithoutFacts(Recent(history[..|history| - 1]), history[|history| - 1]);
    }
  }

  /** Keys in the order of their last uses, latest first. */
  ghost predicate ByLastUse<K>(history: seq<K>, s: seq<K>) {
    forall i, j :: 0 <= i < j < |s| ==> LastUse(history, s[i]) > LastUse(history, s[j])
  }

  lemma ByLastUseCons<K>(history: seq<K>, x: K, s: seq<K>)
    requires ByLastUse(history, s) && forall y :: y in s ==> LastUse(history, x) > LastUse(history, y)
    ensures ByLastUse(history, [x] + s)
  {
  }

  lemma WithoutMember<K>(s: seq<K>, k: K, y: K)
    requires y in Without(s, k)
    ensures y in s
  {
    WithoutFacts(s, k);
  }

  lemma {:induction false} WithoutByLastUse<K>(history: seq<K>, s: seq<K>, k: K)
    requires ByLastUse(history, s)
    ensures ByLastUse(history, Without(s, k))
  {
    if s != [] {
      forall i, j | 0 <= i < j < |s[1..]| ensures LastUse(history, s[1..][i]) > LastUse(history, s[1..][j]) {
        assert s[1..][i] == s[i + 1] && s[1..][j] == s[j + 1];
      }
      WithoutByLastUse(history, s[1..], k);
      WithoutFacts(s[1..], k);
      forall y | y in Without(s[1..], k) ensures LastUse(history, s[0]) > LastUse(history, y) {
        WithoutMember(s[1..], k, y);
        var j :| 0 <= j < |s[1..]| && s[1..][j] == y;
        assert s[j + 1] == y;
      }
      if s[0] != k {
        ByLastUseCons(history, s[0], Without(s[1..], k));
      }
    }
  }

  lemma {:induction false} LastUseBound<K>(history: seq<K>, k: K)
    ensures -1 <= LastUse(history, k) < |history|
  {
    if history != [] {
      LastUseBound(history[..|history| - 1], k);
    }
  }

  /** Recent holds exactly the keys of the history, each once, the later used before the earlier used. */
  lemma {:induction false} RecentIsByLastUse<K>(history: seq<K>)
    ensures forall k :: k in Recent(history) <==> k in history
    ensures ByLastUse(history, Recent(history)) && Distinct(Recent(history))
  {
    RecentIsDistinct(history);
    if history != [] {
      var front, last := history[..|history| - 1], history[|history| - 1];
      var rest := Without(Recent(front), last);
      assert history == front + [last];
      RecentIsByLastUse(front);
      WithoutFacts(Recent(front), last);
      WithoutByLastUse(front, Recent(front), last);
      forall y | y in rest ensures LastUse(history, y) == LastUse(front, y) < LastUse(history, last) {
        LastUseBound(front, y);
      }
      assert ByLastUse(history, rest);
      ByLastUseCons(history, last, rest);
    }
  }

  // ----- the cache -----

  function Keys<K, V>(order: seq<Entry<K, V>>): seq<K> {
    seq(|order|, i requires 0 <= i < |order| => order[i].key)
  }

  /** The list with the entry of a key in front: MoveToFront. */
  function Moved<K(==), V>(order: seq<Entry<K, V>>, k: K): seq<Entry<K, V>> {
    Picked(order, k, true) + Picked(order, k, false)
  }

  function Picked<K(==), V>(order: seq<Entry<K, V>>, k: K, same: bool): seq<Entry<K, V>> {
    if order == [] then []
    else if (order[0].key == k) == same then [order[0]] + Picked(order[1..], k, same) else Picked(order[1..], k, same)
  }

  /** The list after a use of a key, by the whole history. */
  lemma UseIsRecent<K>(history: seq<K>, capacity: nat, k: K)
    requires capacity > 0
    ensures var before := Take(Recent(history), capacity);
            Take(Recent(history + [k]), capacity) ==
              if k in before then [k] + Without(before, k) else Take([k] + before, capacity)
  {
    assert (history + [k])[..|history|] == history;
    var all := Recent(history);
    RecentIsDistinct(history);
    WithoutTake(all, k, capacity);
    var before := Take(all, capacity);
    if k in before {
      assert Take([k] + Without(all, k), capacity) == [k] + Take(Without(all, k), capacity - 1);
    } else {
      assert Take([k] + Without(all, k), capacity) == Take([k] + Take(Without(all, k), capacity), capacity);
    }
  }

  /** Moving an entry to the front keeps the entries and moves the key in the same way. */
  lemma {:induction false} PickedFacts<K, V>(order: seq<Entry<K, V>>, k: K)
    requires Distinct(Keys(order))
    ensures Keys(Picked(order, k, false)) == Without(Keys(order), k)
    ensures Keys(Picked(order, k, true)) == if k in Keys(order) then [k] else []
    ensures multiset(Picked(order, k, true)) + multiset(Picked(order, k, false)) == multiset(order)
  {
    if order != [] {
      var rest := order[1..];
      assert order == [order[0]] + rest;
      assert Keys(order) == [order[0].key] + Keys(rest);
      DistinctCons(order[0].key, Keys(rest));
      PickedFacts(rest, k);
      KeysCons(order[0], Picked(rest, k, order[0].key == k));
    }
  }

  lemma KeysCons<K, V>(e: Entry<K, V>, s: seq<Entry<K, V>>)
    ensures Keys([e] + s) == [e.key] + Keys(s)
  {
  }

  lemma MovedFacts<K, V>(order: seq<Entry<K, V>>, k: K)
    requires Distinct(Keys(order)) && k in Keys(order)
    ensures Keys(Moved(order, k)) == [k] + Without(Keys(order), k)
    ensures multiset(Moved(order, k)) == multiset(order)
  {
    PickedFacts(order, k);
    var a, b := Picked(order, k, true), Picked(order, k, false);
    assert Keys(a + b) == Keys(a) + Keys(b);
  }

  /** Map and list hold the same entries; the list is the most recent keys of the history; and every entry ever created
      is still there or was handed to the callback, once. */
  ghost predicate Consistent<K(!new), V>(capacity: int, history: seq<K>, entries: map<K, V>, order: seq<Entry<K, V>>,
                                         added: seq<Entry<K, V>>, evictions: seq<Entry<K, V>>)
  {
    && capacity > 0
    && Keys(order) == Take(Recent(history), capacity)
    && Agree(entries, order)
    && multiset(added) == multiset(order) + multiset(evictions)
  }

  class BoundedLru<K(!new, ==), V> {
    const capacity: nat
    var entries: map<K, V>             // the value of each list element, by key
    var order: seq<Entry<K, V>>        // front first
    var evictions: seq<Entry<K, V>>    // the calls of the eviction callback
    ghost var history: seq<K>          // every GetOrAdd and every Get that hit
    ghost var added: seq<Entry<K, V>>  // every entry ever created

    ghost predicate Valid()
      reads this
    {
      Consistent(capacity, history, entries, order, added, evictions)
    }

    constructor (capacity: int)
      ensures Valid() && this.capacity == (if capacity < 1 then 1 else capacity)
      ensures entries == map[] && order == [] && history == [] && evictions == [] && added == []
    {
      this.capacity := if capacity < 1 then 1 else capacity;
      entries, order, evictions, history, added := map[], [], [], [], [];
    }

    /** A hit: move the element to the front. */
    method Touch(key: K)
      requires Valid() && key in entries
      modifies this`order, this`history
      ensures Valid() && history == old(history) + [key]
    {
      hide Recent, Moved, Picked, Take, Agree, Distinct;
      UseIsRecent(history, capacity, key);
      TakeRecentDistinct(history, capacity);
      AgreeAbout(entries, order, key);
      MovedAgrees(entries, order, key);
      order, history := Moved(order, key), history + [key];
    }

    /** A miss: push the new element, and drop the last one if there are now too many. */
    method Insert(key: K, value: V)
      requires Valid() && key !in entries
      modifies this
      ensures Valid() && history == old(history) + [key] && added == old(added) + [Entry(key, value)]
      ensures evictions == old(evictions) + (if |old(order)| < capacity then [] else [old(order)[|old(order)| - 1]])
      ensures entries == if |old(order)| < capacity then old(entries)[key := value]
                         else old(entries)[key := value] - {old(order)[|old(order)| - 1].key}
      ensures key in entries && entries[key] == value
    {
      hide Consistent;
      var e := Entry(key, value);
      StaysConsistent(capacity, history, entries, order, added, evictions, e);
      PushedLast(e, order);
      Push(e);
      EvictOverflow();
    }

    method Push(e: Entry<K, V>)
      modifies this`order, this`entries, this`history, this`added
      ensures order == [e] + old(order) && entries == old(entries)[e.key := e.value]
      ensures history == old(history) + [e.key] && added == old(added) + [e]
    {
      history, added := history + [e.key], added + [e];
      order, entries := [e] + order, entries[e.key := e.value];
    }

    method EvictOverflow()
      requires order != []
      modifies this`order, this`entries, this`evictions
      ensures if |old(order)| <= capacity then order == old(order) && entries == old(entries) && evictions == old(evictions)
              else var oldest := old(order)[|old(order)| - 1];
                   && order == old(order)[..|old(order)| - 1] && entries == old(entries) - {oldest.key}
                   && evictions == old(evictions) + [oldest]
    {
      if |order| > capacity {
        var oldest := order[|order| - 1];
        order, entries, evictions := order[..|order| - 1], entries - {oldest.key}, evictions + [oldest];
      }
    }

    /** GetOrAdd.  The callback runs after everything else, with the entry that was evicted. */
    method GetOrAdd(key: K, create: () -> V) returns (value: V)
      requires Valid()
      modifies this
      ensures Valid() && history == old(history) + [key]
      ensures key in old(entries) ==>
                value == old(entries)[key] && entries == old(entries) && added == old(added) && evictions == old(evictions)
      ensures key !in old(entries) ==>
                && value == create() && added == old(added) + [Entry(key, value)]
                && evictions == old(evictions) + (if |old(order)| < capacity then [] else [old(order)[|old(order)| - 1]])
                && entries == if |old(order)| < capacity then old(entries)[key := value]
                              else old(entries)[key := value] - {old(order)[|old(order)| - 1].key}
      ensures key in entries && entries[key] == value
    {
      hide Recent, Take, Agree, Keys;
      if key in entries {
        value := entries[key];
        Touch(key);
        return;
      }
      value := create();
      Insert(key, value);
    }

    /** Get: a hit counts as a use, a miss does not. */
    method Get(key: K) returns (found: Option<V>)
      requires Valid()
      modifies this`order, this`history
      ensures Valid()
      ensures found == (if key in old(entries) then Some(old(entries)[key]) else None)
      ensures history == old(history) + (if key in old(entries) then [key] else [])
    {
      hide Recent, Take, Agree, Keys;
      if key in entries {
        Touch(key);
        return Some(entries[key]);
      }
      found := None;
    }

    method Len() returns (n: nat)
      requires Valid()
      ensures n == |Take(Recent(history), capacity)| && n <= capacity
    {
      n := |entries|;
    }
  }

  lemma TakeRecentDistinct<K>(history: seq<K>, capacity: nat)
    ensures Distinct(Take(Recent(history), capacity)) && |Take(Recent(history), capacity)| <= capacity
  {
    RecentIsDistinct(history);
  }

  lemma TakeShort<K>(s: seq<K>, n: nat)
    ensures Take(s, n) == if |s| > n then s[..n] else s
  {
  }

  ghost predicate Agree<K(!new), V>(entries: map<K, V>, order: seq<Entry<K, V>>) {
    && (forall k :: k in entries <==> k in Keys(order))
    && (forall i :: 0 <= i < |order| ==> order[i].key in entries && entries[order[i].key] == order[i].value)
    && |entries| == |order|
  }

  lemma AgreeAbout<K(!new), V>(entries: map<K, V>, order: seq<Entry<K, V>>, k: K)
    requires Agree(entries, order)
    ensures (k in entries <==> k in Keys(order)) && |entries| == |order|
  {
  }

  lemma Appended<T>(s: seq<T>, e: T)
    ensures multiset(s + [e]) == multiset(s) + multiset{e}
  {
  }

  lemma Prepended<T>(e: T, s: seq<T>)
    ensures multiset([e] + s) == multiset{e} + multiset(s)
  {
  }

  lemma Shortened<T>(s: seq<T>)
    requires s != []
    ensures multiset(s) == multiset(s[..|s| - 1]) + multiset{s[|s| - 1]}
  {
    assert s == s[..|s| - 1] + [s[|s| - 1]];
  }

  /** The entry that is pushed is created; the one that is dropped is handed to the callback. */
  lemma Conserved<T>(added: seq<T>, order: seq<T>, evictions: seq<T>, e: T)
    requires multiset(added) == multiset(order) + multiset(evictions)
    ensures var pushed := [e] + order;
            var kept, last := pushed[..|pushed| - 1], pushed[|pushed| - 1];
            && multiset(added + [e]) == multiset(pushed) + multiset(evictions)
            && multiset(added + [e]) == multiset(kept) + multiset(evictions + [last])
  {
    var pushed := [e] + order;
    Appended(added, e);
    Prepended(e, order);
    Shortened(pushed);
    Appended(evictions, pushed[|pushed| - 1]);
  }

  /** List and map after a miss. */
  lemma Inserted<K(!new), V>(history: seq<K>, capacity: nat, entries: map<K, V>, order: seq<Entry<K, V>>, e: Entry<K, V>)
    requires capacity > 0 && Keys(order) == Take(Recent(history), capacity) && Agree(entries, order) && e.key !in entries
    ensures |order| <= capacity
    ensures var pushed, stored := [e] + order, entries[e.key := e.value];
            if |pushed| <= capacity then Agree(stored, pushed) && Keys(pushed) == Take(Recent(history + [e.key]), capacity)
            else
              var last := pushed[|pushed| - 1];
              && last.key != e.key && Agree(stored - {last.key}, pushed[..|pushed| - 1])
              && Keys(pushed[..|pushed| - 1]) == Take(Recent(history + [e.key]), capacity)
  {
    hide Recent, Take, Agree, Distinct, Keys;
    var pushed := [e] + order;
    UseIsRecent(history, capacity, e.key);
    TakeRecentDistinct(history, capacity);
    AgreeAbout(entries, order, e.key);
    PushAgrees(entries, order, e);
    KeysCons(e, order);
    KeysLength(order);
    KeysLength(pushed);
    DistinctCons(e.key, Keys(order));
    TakeShort([e.key] + Keys(order), capacity);
    if |pushed| > capacity {
      PopAgrees(entries[e.key := e.value], pushed);
      LastDiffers(pushed);
    }
  }

  lemma StaysConsistent<K(!new), V>(capacity: nat, history: seq<K>, entries: map<K, V>, order: seq<Entry<K, V>>,
                                    added: seq<Entry<K, V>>, evictions: seq<Entry<K, V>>, e: Entry<K, V>)
    requires Consistent(capacity, history, entries, order, added, evictions) && e.key !in entries
    ensures |order| <= capacity
    ensures var pushed, stored := [e] + order, entries[e.key := e.value];
            if |pushed| <= capacity then Consistent(capacity, history + [e.key], stored, pushed, added + [e], evictions)
            else
              var last := pushed[|pushed| - 1];
              && last.key != e.key
              && Consistent(capacity, history + [e.key], stored - {last.key}, pushed[..|pushed| - 1], added + [e], evictions + [last])
  {
    hide Recent, Take, Agree, Keys;
    Inserted(history, capacity, entries, order, e);
    Conserved(added, order, evictions, e);
  }

  lemma PushedLast<K, V>(e: Entry<K, V>, order: seq<Entry<K, V>>)
    ensures var pushed := [e] + order;
            order != [] ==> pushed[|pushed| - 1] == order[|order| - 1]
  {
  }

  lemma LastDiffers<K, V>(order: seq<Entry<K, V>>)
    requires Distinct(Keys(order)) && |order| > 1
    ensures order[|order| - 1].key != order[0].key
  {
    assert Keys(order)[0] != Keys(order)[|order| - 1];
  }

  lemma KeysLength<K, V>(order: seq<Entry<K, V>>)
    ensures |Keys(order)| == |order|
  {
  }

  lemma MovedAgrees<K(!new), V>(entries: map<K, V>, order: seq<Entry<K, V>>, k: K)
    requires Agree(entries, order) && Distinct(Keys(order)) && k in entries
    ensures Agree(entries, Moved(order, k)) && Keys(Moved(order, k)) == [k] + Without(Keys(order), k)
    ensures multiset(Moved(order, k)) == multiset(order)
  {
    hide Moved;
    MovedFacts(order, k);
    var moved := Moved(order, k);
    WithoutFacts(Keys(order), k);
    forall i | 0 <= i < |moved| ensures moved[i].key in entries && entries[moved[i].key] == moved[i].value {
      assert moved[i] in multiset(moved) && moved[i] in order;
    }
    assert |moved| == |multiset(moved)| == |multiset(order)| == |order|;
  }

  lemma PushAgrees<K(!new), V>(entries: map<K, V>, order: seq<Entry<K, V>>, e: Entry<K, V>)
    requires Agree(entries, order) && e.key !in entries
    ensures Agree(entries[e.key := e.value], [e] + order)
  {
    KeysCons(e, order);
    assert entries[e.key := e.value].Keys == entries.Keys + {e.key};
  }

  lemma LastIsAlone<K, V>(order: seq<Entry<K, V>>)
    requires Distinct(Keys(order)) && order != []
    ensures var n := |order| - 1;
            Keys(order) == Keys(order[..n]) + [order[n].key] && order[n].key !in Keys(order[..n])
  {
    var n := |order| - 1;
    assert Keys(order) == Keys(order[..n]) + [order[n].key];
    forall i | 0 <= i < n ensures Keys(order[..n])[i] != order[n].key {
      assert Keys(order)[i] != Keys(order)[n];
    }
  }

  lemma PopAgrees<K(!new), V>(entries: map<K, V>, order: seq<Entry<K, V>>)
    requires Agree(entries, order) && Distinct(Keys(order)) && order != []
    ensures var last := order[|order| - 1];
            && Agree(entries - {last.key}, order[..|order| - 1])
            && Keys(order[..|order| - 1]) == Keys(order)[..|order| - 1]
  {
    hide Distinct;
    var n := |order| - 1;
    var front, last := order[..n], order[n];
    assert order == front + [last];
    LastIsAlone(order);
    var after := entries - {last.key};
    forall i | 0 <= i < n ensures front[i].key in after && after[front[i].key] == front[i].value {
      assert front[i] == order[i] && Keys(front)[i] in Keys(front);
    }
    assert entries.Keys == after.Keys + {last.key};
    forall k ensures k in after <==> k in Keys(front) {
      assert k in Keys(order) <==> k in Keys(front) || k == last.key;
    }
  }
}
