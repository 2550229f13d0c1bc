/** Lists of replay items, and the normalizing of their items one by one. */
module ReplayItems {
  import opened Bytes

  /** Replay items are opaque; the JSON normalizer of one item is a parameter. */
  type Items = seq<bytes>
  type ItemNormalizer = bytes -> Option<bytes>

  function TotalBytes(items: Items): nat {
    if items == [] then 0 else TotalBytes(items[..|items| - 1]) + |items[|items| - 1]|
  }

  lemma TotalBytesSnoc(items: Items, i: nat)
    requires i < |items|
    ensures TotalBytes(items[..i + 1]) == TotalBytes(items[..i]) + |items[i]|
  {
    assert items[..i + 1][..i] == items[..i];
  }

  /** The normal forms of the items that have one. */
  function Kept(normalize: ItemNormalizer, items: Items): Items {
    if items == [] then []
    else
      var last := normalize(items[|items| - 1]);
      Kept(normalize, items[..|items| - 1]) + if last.Some? then [last.value] else []
  }

  lemma KeptSnoc(normalize: ItemNormalizer, items: Items, n: nat)
    requires n < |items|
    ensures var last := normalize(items[n]);
            && Kept(normalize, items[..n + 1]) == Kept(normalize, items[..n]) + (if last.Some? then [last.value] else [])
            && TotalBytes(Kept(normalize, items[..n + 1])) ==
               TotalBytes(Kept(normalize, items[..n])) + (if last.Some? then |last.value| else 0)
  {
    assert items[..n + 1][..n] == items[..n];
    var kept, last := Kept(normalize, items[..n]), normalize(items[n]);
    if last.Some? {
      assert (kept + [last.value])[..|kept|] == kept;
    } else {
      assert kept + [] == kept;
    }
  }

  lemma {:induction false} KeptPrefix(normalize: ItemNormalizer, items: Items, n: nat)
    requires n <= |items|
    ensures TotalBytes(Kept(normalize, items[..n])) <= TotalBytes(Kept(normalize, items))
    decreases |items|
  {
    if n == |items| {
      assert items[..n] == items;
    } else {
      var front := items[..|items| - 1];
      KeptPrefix(normalize, front, n);
      assert front[..n] == items[..n];
      KeptSnoc(normalize, items, |items| - 1);
      assert items[..|items|] == items;
    }
  }
}
