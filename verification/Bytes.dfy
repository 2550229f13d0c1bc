/** Byte strings and the handful of Go text helpers (bytes.Index, strings.TrimSpace,
    strings.EqualFold) that the wire code is written with.  ASCII only. */
module Bytes {
  newtype byte = x: int | 0 <= x < 256
  type bytes = seq<byte>

  const CR: byte := 13
  const LF: byte := 10
  const CRLF: bytes := [CR, LF]
  const TERMINATOR: bytes := [CR, LF, CR, LF]

  datatype Option<+T> = None | Some(value: T)

  /** The bytes of an ASCII string literal. */
  function Ascii(s: string): (b: bytes)
    ensures |b| == |s|
  {
    seq(|s|, i requires 0 <= i < |s| => (s[i] as int % 256) as byte)
  }

  predicate OccursAt(s: bytes, pat: bytes, i: int) {
    0 <= i && i + |pat| <= |s| && s[i..i + |pat|] == pat
  }

  /** bytes.Index: the first occurrence of pat, or -1. */
  function Index(s: bytes, pat: bytes): (i: int)
    ensures i == -1 || 0 <= i <= i + |pat| <= |s|
  {
    IndexFrom(s, pat, 0)
  }

  function IndexFrom(s: bytes, pat: bytes, from: nat): (i: int)
    requires from <= |s|
    ensures i == -1 || from <= i <= i + |pat| <= |s|
    decreases |s| - from
  {
    if OccursAt(s, pat, from) then from
    else if from == |s| then -1
    else IndexFrom(s, pat, from + 1)
  }

  /** Index finds an occurrence, there is none before it, and it finds one if there is one. */
  lemma IndexIsFirst(s: bytes, pat: bytes)
    ensures Index(s, pat) >= 0 ==> OccursAt(s, pat, Index(s, pat))
    ensures forall j :: OccursAt(s, pat, j) ==> 0 <= Index(s, pat) <= j
  {
    IndexFromIsFirst(s, pat, 0);
  }

  lemma {:induction false} IndexFromIsFirst(s: bytes, pat: bytes, from: nat)
    requires from <= |s|
    ensures IndexFrom(s, pat, from) >= 0 ==> OccursAt(s, pat, IndexFrom(s, pat, from))
    ensures forall j :: from <= j && OccursAt(s, pat, j) ==> 0 <= IndexFrom(s, pat, from) <= j
    decreases |s| - from
  {
    if !OccursAt(s, pat, from) && from < |s| {
      IndexFromIsFirst(s, pat, from + 1);
    }
  }

  /** bytes.IndexByte */
  function IndexByte(s: bytes, b: byte): (i: int)
    ensures -1 <= i < |s|
  {
    if s == [] then -1
    else if s[0] == b then 0
    else
      var r := IndexByte(s[1..], b);
      if r < 0 then -1 else r + 1
  }

  lemma {:induction false} IndexByteIsFirst(s: bytes, b: byte)
    ensures IndexByte(s, b) >= 0 ==> s[IndexByte(s, b)] == b
    ensures forall j :: 0 <= j < |s| && s[j] == b ==> 0 <= IndexByte(s, b) <= j
  {
    if s != [] && s[0] != b {
      IndexByteIsFirst(s[1..], b);
      forall j | 0 <= j < |s| && s[j] == b ensures 0 <= IndexByte(s, b) <= j {
        assert s[1..][j - 1] == b;
      }
    }
  }

  predicate IsSpace(b: byte) {
    9 <= b <= 13 || b == 32
  }

  function TrimLeft<T>(s: seq<T>, space: T -> bool): seq<T> {
    if |s| > 0 && space(s[0]) then TrimLeft(s[1..], space) else s
  }

  function TrimRight<T>(s: seq<T>, space: T -> bool): seq<T> {
    if |s| > 0 && space(s[|s| - 1]) then TrimRight(s[..|s| - 1], space) else s
  }

  /** strings.TrimSpace on ASCII input. */
  function TrimSpace(s: bytes): bytes {
    TrimRight(TrimLeft(s, IsSpace), IsSpace)
  }

  function Lower(b: byte): byte {
    if 65 <= b <= 90 then b + 32 else b
  }

  /** strings.EqualFold on ASCII input. */
  predicate EqualFold(a: bytes, b: bytes) {
    |a| == |b| && forall i :: 0 <= i < |a| ==> Lower(a[i]) == Lower(b[i])
  }

  /** An occurrence in a prefix is an occurrence in the whole, and one that ends inside the prefix stays there. */
  lemma OccursInPrefix(s: bytes, pat: bytes, n: nat, i: int)
    requires n <= |s| && 0 <= i && i + |pat| <= n
    ensures OccursAt(s[..n], pat, i) <==> OccursAt(s, pat, i)
  {
    assert s[..n][i..i + |pat|] == s[i..i + |pat|];
  }

  lemma OccursInSuffix(s: bytes, pat: bytes, n: nat, i: int)
    requires n <= |s| && 0 <= i
    ensures OccursAt(s[n..], pat, i) <==> OccursAt(s, pat, n + i)
  {
    if i + |pat| <= |s| - n {
      assert s[n..][i..i + |pat|] == s[n + i..n + i + |pat|];
    }
  }

  predicate EndsWith(s: bytes, suffix: bytes) {
    |s| >= |suffix| && s[|s| - |suffix|..] == suffix
  }

  /** Text that ends with the pattern contains it; text that contains it only from n-1 on ends with it at n. */
  lemma EndsWithIndex(s: bytes, pat: bytes)
    ensures EndsWith(s, pat) ==> Index(s, pat) >= 0
    ensures Index(s, pat) >= 0 && Index(s, pat) + |pat| == |s| ==> EndsWith(s, pat)
  {
    IndexIsFirst(s, pat);
    var k := |s| - |pat|;
    if EndsWith(s, pat) {
      assert s[k..k + |pat|] == s[k..];
      assert OccursAt(s, pat, k);
    }
    if Index(s, pat) >= 0 && Index(s, pat) == k {
      assert s[k..k + |pat|] == s[k..];
    }
  }

  lemma PrefixSnoc(s: bytes, n: nat)
    requires n < |s|
    ensures s[..n] + [s[n]] == s[..n + 1]
  {
  }

  /** The first occurrence in a prefix that contains one is the first in the whole. */
  lemma IndexOfPrefix(s: bytes, n: nat, pat: bytes)
    requires n <= |s|
    ensures Index(s[..n], pat) >= 0 ==> Index(s, pat) == Index(s[..n], pat)
    ensures Index(s, pat) >= 0 && Index(s, pat) + |pat| <= n ==> Index(s[..n], pat) == Index(s, pat)
  {
    var p, q := Index(s[..n], pat), Index(s, pat);
    IndexIsFirst(s, pat);
    IndexIsFirst(s[..n], pat);
    if p >= 0 {
      OccursInPrefix(s, pat, n, p);
    }
    if q >= 0 && q + |pat| <= n {
      OccursInPrefix(s, pat, n, q);
    }
  }

  // ----- trimming -----

  lemma TrimLeftNothing(s: bytes)
    requires s != [] && !IsSpace(s[0])
    ensures TrimLeft(s, IsSpace) == s
  {
  }

  lemma {:induction false} TrimLeftOf(spaces: bytes, text: bytes)
    requires text != [] && !IsSpace(text[0]) && forall b :: b in spaces ==> IsSpace(b)
    ensures TrimLeft(spaces + text, IsSpace) == text
    decreases |spaces|
  {
    if spaces == [] {
      assert spaces + text == text;
    } else {
      assert (spaces + text)[1..] == spaces[1..] + text;
      TrimLeftOf(spaces[1..], text);
    }
  }

  lemma {:induction false} TrimRightOf(text: bytes, spaces: bytes)
    requires text != [] && !IsSpace(text[|text| - 1]) && forall b :: b in spaces ==> IsSpace(b)
    ensures TrimRight(text + spaces, IsSpace) == text
    decreases |spaces|
  {
    if spaces == [] {
      assert text + spaces == text;
    } else {
      var n := |spaces| - 1;
      assert (text + spaces)[..|text| + n] == text + spaces[..n];
      TrimRightOf(text, spaces[..n]);
    }
  }

  /** Trimming on the right keeps everything up to any byte that is no space. */
  lemma {:induction false} TrimRightKeeps(s: bytes, k: nat)
    requires k < |s| && !IsSpace(s[k])
    ensures var trimmed := TrimRight(s, IsSpace); k < |trimmed| <= |s| && trimmed == s[..|trimmed|]
  {
    if IsSpace(s[|s| - 1]) {
      TrimRightKeeps(s[..|s| - 1], k);
    } else {
      assert s[..|s|] == s;
    }
  }
}
