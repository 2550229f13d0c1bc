/** Stable ordering of header lines by a key: the bucket-by-bucket result that the wire
    rewriter computes, and why it is the stable sort. */
module StableOrder {
  import opened Bytes

  type Key = bytes -> nat

  /** The lines of one rank, in their original order. */
  function Bucket(lines: seq<bytes>, key: Key, r: nat): (bucket: seq<bytes>) {
    if lines == [] then []
    else if key(lines[0]) == r then [lines[0]] + Bucket(lines[1..], key, r)
    else Bucket(lines[1..], key, r)
  }

  /** All buckets below rank n, lowest rank first. */
  function Buckets(lines: seq<bytes>, key: Key, n: nat): seq<bytes> {
    if n == 0 then [] else Buckets(lines, key, n - 1) + Bucket(lines, key, n - 1)
  }

  ghost predicate Sorted(lines: seq<bytes>, key: Key) {
    forall i, j :: 0 <= i < j < |lines| ==> key(lines[i]) <= key(lines[j])
  }

  ghost predicate KeysBelow(lines: seq<bytes>, key: Key, n: nat) {
    forall line :: line in lines ==> key(line) < n
  }

  /** sorted is a stable sort of lines: ranks never decrease, and lines of one rank keep their order. */
  ghost predicate IsStableSort(lines: seq<bytes>, key: Key, sorted: seq<bytes>) {
    && Sorted(sorted, key)
    && forall r: nat :: Bucket(sorted, key, r) == Bucket(lines, key, r)
  }

  lemma {:induction false} BucketConcat(a: seq<bytes>, b: seq<bytes>, key: Key, r: nat)
    ensures Bucket(a + b, key, r) == Bucket(a, key, r) + Bucket(b, key, r)
  {
    if a == [] {
      assert a + b == b;
    } else {
      assert (a + b)[0] == a[0] && (a + b)[1..] == a[1..] + b;
      BucketConcat(a[1..], b, key, r);
    }
  }

  lemma {:induction false} BucketOne(lines: seq<bytes>, key: Key, r: nat)
    ensures forall line :: line in Bucket(lines, key, r) <==> line in lines && key(line) == r
  {
    if lines != [] {
      BucketOne(lines[1..], key, r);
      assert lines == [lines[0]] + lines[1..];
    }
  }

  lemma {:induction false} BucketEmpty(lines: seq<bytes>, key: Key, r: nat)
    requires forall line :: line in lines ==> key(line) != r
    ensures Bucket(lines, key, r) == []
  {
    if lines != [] {
      BucketEmpty(lines[1..], key, r);
    }
  }

  /** Lines of one rank are their own bucket, and no other. */
  lemma {:induction false} BucketUniform(lines: seq<bytes>, key: Key, q: nat, r: nat)
    requires forall line :: line in lines ==> key(line) == q
    ensures Bucket(lines, key, r) == if q == r then lines else []
  {
    if lines != [] {
      BucketUniform(lines[1..], key, q, r);
      assert lines == [lines[0]] + lines[1..];
    }
  }

  lemma {:induction false} BucketOfBuckets(lines: seq<bytes>, key: Key, n: nat, r: nat)
    ensures Bucket(Buckets(lines, key, n), key, r) == if r < n then Bucket(lines, key, r) else []
  {
    hide Bucket;
    if n == 0 {
      BucketEmpty([], key, r);
    } else {
      BucketOfBuckets(lines, key, n - 1, r);
      BucketConcat(Buckets(lines, key, n - 1), Bucket(lines, key, n - 1), key, r);
      BucketOne(lines, key, n - 1);
      BucketUniform(Bucket(lines, key, n - 1), key, n - 1, r);
    }
  }

  lemma {:induction false} BucketsSorted(lines: seq<bytes>, key: Key, n: nat)
    ensures Sorted(Buckets(lines, key, n), key) && KeysBelow(Buckets(lines, key, n), key, n)
  {
    if n > 0 {
      BucketsSorted(lines, key, n - 1);
      BucketOne(lines, key, n - 1);
      var low, top := Buckets(lines, key, n - 1), Bucket(lines, key, n - 1);
      forall i, j | 0 <= i < j < |low + top| ensures key((low + top)[i]) <= key((low + top)[j]) {
        assert i < |low| ==> low[i] in low;
        assert j < |low| ==> low[j] in low;
        assert i >= |low| ==> top[i - |low|] in top;
        assert j >= |low| ==> top[j - |low|] in top;
      }
    }
  }

  /** The rewriter's order is a stable sort of the lines. */
  lemma BucketsAreStableSort(lines: seq<bytes>, key: Key, n: nat)
    requires KeysBelow(lines, key, n)
    ensures IsStableSort(lines, key, Buckets(lines, key, n))
  {
    BucketsSorted(lines, key, n);
    forall r: nat ensures Bucket(Buckets(lines, key, n), key, r) == Bucket(lines, key, r) {
      BucketOfBuckets(lines, key, n, r);
      if r >= n {
        BucketEmpty(lines, key, r);
      }
    }
  }

  lemma {:induction false} BucketsDependOnBuckets(a: seq<bytes>, b: seq<bytes>, key: Key, n: nat)
    requires forall r :: 0 <= r < n ==> Bucket(a, key, r) == Bucket(b, key, r)
    ensures Buckets(a, key, n) == Buckets(b, key, n)
  {
    if n > 0 {
      BucketsDependOnBuckets(a, b, key, n - 1);
    }
  }

  /** A sorted list falls into the lines below rank n - 1 and the lines of that rank. */
  lemma SortedSplit(s: seq<bytes>, key: Key, n: nat) returns (low: seq<bytes>, top: seq<bytes>)
    requires n > 0 && Sorted(s, key) && KeysBelow(s, key, n)
    ensures s == low + top && Sorted(low, key) && KeysBelow(low, key, n - 1)
    ensures forall line :: line in top ==> key(line) == n - 1
  {
    var k := |s|;
    while k > 0 && key(s[k - 1]) == n - 1
      invariant 0 <= k <= |s|
      invariant forall i :: k <= i < |s| ==> key(s[i]) == n - 1
    {
      k := k - 1;
    }
    low, top := s[..k], s[k..];
    forall line | line in low ensures key(line) < n - 1 {
      var i :| 0 <= i < k && s[i] == line;
      assert s[k - 1] in s;
    }
  }

  lemma {:induction false} SortedIsItsBuckets(s: seq<bytes>, key: Key, n: nat)
    requires Sorted(s, key) && KeysBelow(s, key, n)
    ensures Buckets(s, key, n) == s
    decreases n
  {
    assert s != [] ==> s[0] in s;
    if n > 0 {
      var low, top := SortedSplit(s, key, n);
      SortedIsItsBuckets(low, key, n - 1);
      LowerBuckets(low, top, key, n - 1);
      TopBucket(low, top, key, n - 1);
    }
  }

  lemma LowerBuckets(low: seq<bytes>, top: seq<bytes>, key: Key, n: nat)
    requires forall line :: line in top ==> key(line) == n
    ensures Buckets(low + top, key, n) == Buckets(low, key, n)
  {
    forall r | 0 <= r < n ensures Bucket(low + top, key, r) == Bucket(low, key, r) {
      BucketConcat(low, top, key, r);
      BucketUniform(top, key, n, r);
    }
    BucketsDependOnBuckets(low + top, low, key, n);
  }

  lemma TopBucket(low: seq<bytes>, top: seq<bytes>, key: Key, r: nat)
    requires KeysBelow(low, key, r) && forall line :: line in top ==> key(line) == r
    ensures Bucket(low + top, key, r) == top
  {
    BucketConcat(low, top, key, r);
    BucketUniform(top, key, r, r);
    BucketEmpty(low, key, r);
  }

  /** There is only one stable sort: every stable sort is the bucket order. */
  lemma StableSortUnique(lines: seq<bytes>, key: Key, n: nat, sorted: seq<bytes>)
    requires KeysBelow(lines, key, n) && IsStableSort(lines, key, sorted)
    ensures sorted == Buckets(lines, key, n)
  {
    forall line | line in sorted ensures key(line) < n {
      BucketOne(sorted, key, key(line));
      BucketOne(lines, key, key(line));
      assert line in Bucket(lines, key, key(line));
    }
    SortedIsItsBuckets(sorted, key, n);
    BucketsDependOnBuckets(sorted, lines, key, n);
  }

  /** Ordering twice is ordering once. */
  lemma BucketsIdempotent(lines: seq<bytes>, key: Key, n: nat)
    ensures Buckets(Buckets(lines, key, n), key, n) == Buckets(lines, key, n)
  {
    BucketsSorted(lines, key, n);
    SortedIsItsBuckets(Buckets(lines, key, n), key, n);
  }

  lemma BucketCons(line: bytes, rest: seq<bytes>, key: Key, r: nat)
    ensures Bucket([line] + rest, key, r) == if key(line) == r then [line] + Bucket(rest, key, r) else Bucket(rest, key, r)
  {
    assert ([line] + rest)[1..] == rest;
  }

  lemma Regroup(before: seq<bytes>, line: bytes, after: seq<bytes>, top: seq<bytes>)
    ensures (before + [line] + after) + top == before + [line] + (after + top)
    ensures (before + after) + top == before + (after + top)
  {
  }

  /** Putting one more line in front puts it into exactly one bucket. */
  lemma {:induction false} BucketsCons(line: bytes, rest: seq<bytes>, key: Key, n: nat) returns (before: seq<bytes>, after: seq<bytes>)
    requires key(line) < n
    ensures Buckets([line] + rest, key, n) == before + [line] + after
    ensures Buckets(rest, key, n) == before + after
  {
    hide Bucket;
    BucketCons(line, rest, key, n - 1);
    var top := Bucket(rest, key, n - 1);
    if key(line) == n - 1 {
      before, after := Buckets(rest, key, n - 1), top;
      LowerBucketsCons(line, rest, key, n - 1);
      assert before + ([line] + top) == before + [line] + top;
    } else {
      var b, a := BucketsCons(line, rest, key, n - 1);
      before, after := b, a + top;
      Regroup(b, line, a, top);
    }
  }

  lemma LowerBucketsCons(line: bytes, rest: seq<bytes>, key: Key, n: nat)
    requires key(line) == n
    ensures Buckets([line] + rest, key, n) == Buckets(rest, key, n)
  {
    hide Bucket;
    forall r | 0 <= r < n ensures Bucket([line] + rest, key, r) == Bucket(rest, key, r) {
      BucketCons(line, rest, key, r);
    }
    BucketsDependOnBuckets([line] + rest, rest, key, n);
  }

  /** Ordering is a permutation. */
  lemma {:induction false} BucketsPermute(lines: seq<bytes>, key: Key, n: nat)
    requires KeysBelow(lines, key, n)
    ensures multiset(Buckets(lines, key, n)) == multiset(lines)
  {
    if lines == [] {
      BucketsEmpty(key, n);
    } else {
      assert lines == [lines[0]] + lines[1..];
      var before, after := BucketsCons(lines[0], lines[1..], key, n);
      BucketsPermute(lines[1..], key, n);
    }
  }

  lemma {:induction false} BucketsEmpty(key: Key, n: nat)
    ensures Buckets([], key, n) == []
  {
    if n > 0 {
      BucketsEmpty(key, n - 1);
    }
  }
}
