/** What reordering a request head keeps: its length, its end, its framing, and itself. */
module HeaderFacts {
  import opened Bytes
  import opened StableOrder
  import opened HeaderOrder

  lemma {:induction false} RankOfNamed(a: bytes, b: bytes, name: bytes, desired: seq<bytes>)
    requires HeaderLineNamed(a, name) && HeaderLineNamed(b, name)
    ensures Rank(a, desired) == Rank(b, desired)
  {
    if desired != [] {
      assert HeaderLineNamed(a, desired[0]) <==> HeaderLineNamed(b, desired[0]);
      RankOfNamed(a, b, name, desired[1..]);
    }
  }

  lemma RanksBelow(lines: seq<bytes>, desired: seq<bytes>)
    ensures KeysBelow(lines, RankBy(desired), |desired| + 1)
  {
  }

  /** The rewritten order is the stable sort of the lines by first matching name, unlisted lines last. */
  lemma OrderIsStableSort(lines: seq<bytes>, desired: seq<bytes>, sorted: seq<bytes>)
    ensures IsStableSort(lines, RankBy(desired), sorted) <==> sorted == OrderedLines(lines, desired)
    ensures multiset(OrderedLines(lines, desired)) == multiset(lines)
  {
    RanksBelow(lines, desired);
    BucketsAreStableSort(lines, RankBy(desired), |desired| + 1);
    BucketsPermute(lines, RankBy(desired), |desired| + 1);
    if IsStableSort(lines, RankBy(desired), sorted) {
      StableSortUnique(lines, RankBy(desired), |desired| + 1, sorted);
    }
  }

  // ----- framing -----

  /** The lines with a given name, in order. */
  function Named(lines: seq<bytes>, name: bytes): seq<bytes> {
    if lines == [] then []
    else if HeaderLineNamed(lines[0], name) then [lines[0]] + Named(lines[1..], name)
    else Named(lines[1..], name)
  }

  lemma {:induction false} NamedConcat(a: seq<bytes>, b: seq<bytes>, name: bytes)
    ensures Named(a + b, name) == Named(a, name) + Named(b, name)
  {
    if a == [] {
      assert a + b == b;
    } else {
      assert (a + b)[0] == a[0] && (a + b)[1..] == a[1..] + b;
      NamedConcat(a[1..], b, name);
    }
  }

  /** Content-Length depends only on the lines of that name and their order. */
  lemma {:induction false} ContentLengthOfNamed(lines: seq<bytes>)
    ensures ContentLength(lines) == ContentLength(Named(lines, CONTENT_LENGTH))
  {
    if lines != [] {
      ContentLengthOfNamed(lines[1..]);
    }
  }

  /** Lines of one name sit in one bucket. */
  lemma {:induction false} NamedOfBucket(lines: seq<bytes>, name: bytes, desired: seq<bytes>, example: bytes, r: nat)
    requires HeaderLineNamed(example, name)
    ensures Named(Bucket(lines, RankBy(desired), r), name) == if Rank(example, desired) == r then Named(lines, name) else []
  {
    if lines != [] {
      NamedOfBucket(lines[1..], name, desired, example, r);
      if HeaderLineNamed(lines[0], name) {
        RankOfNamed(lines[0], example, name, desired);
      }
    }
  }

  lemma {:induction false} NamedOfBuckets(lines: seq<bytes>, name: bytes, desired: seq<bytes>, example: bytes, n: nat)
    requires HeaderLineNamed(example, name)
    ensures Named(Buckets(lines, RankBy(desired), n), name) == if Rank(example, desired) < n then Named(lines, name) else []
  {
    if n > 0 {
      NamedOfBuckets(lines, name, desired, example, n - 1);
      NamedOfBucket(lines, name, desired, example, n - 1);
      NamedConcat(Buckets(lines, RankBy(desired), n - 1), Bucket(lines, RankBy(desired), n - 1), name);
    }
  }

  lemma {:induction false} NamedNone(lines: seq<bytes>, name: bytes)
    requires forall line :: line in lines ==> !HeaderLineNamed(line, name)
    ensures Named(lines, name) == []
  {
    if lines != [] {
      NamedNone(lines[1..], name);
    }
  }

  /** Reordering keeps the lines of every name in their relative order. */
  lemma OrderKeepsNamed(lines: seq<bytes>, name: bytes, desired: seq<bytes>)
    ensures Named(OrderedLines(lines, desired), name) == Named(lines, name)
  {
    OrderIsStableSort(lines, desired, []);
    if example :| example in lines && HeaderLineNamed(example, name) {
      NamedOfBuckets(lines, name, desired, example, |desired| + 1);
    } else {
      forall line | line in OrderedLines(lines, desired) ensures line in lines {
        assert line in multiset(OrderedLines(lines, desired));
      }
      NamedNone(lines, name);
      NamedNone(OrderedLines(lines, desired), name);
    }
  }

  /** The body framing read off the reordered lines is the one read off the original lines. */
  lemma OrderKeepsFraming(lines: seq<bytes>, desired: seq<bytes>)
    ensures ContentLength(OrderedLines(lines, desired)) == ContentLength(lines)
    ensures UsesChunked(OrderedLines(lines, desired)) <==> UsesChunked(lines)
  {
    OrderKeepsNamed(lines, CONTENT_LENGTH, desired);
    ContentLengthOfNamed(lines);
    ContentLengthOfNamed(OrderedLines(lines, desired));
    OrderIsStableSort(lines, desired, []);
    assert forall line :: line in lines <==> line in multiset(lines);
    assert forall line :: line in OrderedLines(lines, desired) <==> line in multiset(OrderedLines(lines, desired));
  }

  // ----- splitting and joining -----

  predicate NoCRLF(lines: seq<bytes>) {
    forall line :: line in lines ==> Index(line, CRLF) < 0
  }

  lemma {:induction false} SplitText(s: bytes)
    ensures Text(Split(s)) == s && NoCRLF(Split(s))
    decreases |s|
  {
    var i := Index(s, CRLF);
    if i >= 0 {
      SplitText(s[i + 2..]);
      IndexOfPrefix(s, i, CRLF);
      IndexIsFirst(s, CRLF);
      assert s == s[..i] + s[i..i + 2] + s[i + 2..];
      assert Split(s)[1..] == Split(s[i + 2..]);
    }
  }

  lemma OccursCRLF(s: bytes, j: nat)
    ensures OccursAt(s, CRLF, j) <==> j + 2 <= |s| && s[j] == CR && s[j + 1] == LF
  {
    if j + 2 <= |s| {
      assert s[j..j + 2] == [s[j], s[j + 1]];
    }
  }

  /** A CRLF right after CRLF-free text is the first one. */
  lemma IndexAfterLine(line: bytes, rest: bytes)
    requires Index(line, CRLF) < 0
    ensures Index(line + CRLF + rest, CRLF) == |line|
  {
    hide Index, OccursAt;
    var s := line + CRLF + rest;
    assert forall k :: 0 <= k < |line| ==> s[k] == line[k];
    assert s[|line|] == CR && s[|line| + 1] == LF;
    OccursCRLF(s, |line|);
    forall j | 0 <= j < |line| ensures !OccursAt(s, CRLF, j) {
      OccursCRLF(s, j);
      OccursCRLF(line, j);
      NoOccurrence(line, CRLF, j);
    }
    IndexIsAt(s, CRLF, |line|);
  }

  lemma NoOccurrence(s: bytes, pat: bytes, j: nat)
    requires Index(s, pat) < 0
    ensures !OccursAt(s, pat, j)
  {
    IndexIsFirst(s, pat);
  }

  lemma IndexIsAt(s: bytes, pat: bytes, i: nat)
    requires OccursAt(s, pat, i) && forall j :: 0 <= j < i ==> !OccursAt(s, pat, j)
    ensures Index(s, pat) == i
  {
    IndexIsFirst(s, pat);
  }

  lemma {:induction false} TextSplit(lines: seq<bytes>)
    requires lines != [] && NoCRLF(lines)
    ensures Split(Text(lines)) == lines
  {
    if |lines| > 1 {
      TextSplit(lines[1..]);
      IndexAfterLine(lines[0], Text(lines[1..]));
      var s := Text(lines);
      assert s[..|lines[0]|] == lines[0] && s[|lines[0]| + 2..] == Text(lines[1..]);
      assert lines == [lines[0]] + lines[1..];
    } else {
      assert lines == [lines[0]];
    }
  }

  lemma {:induction false} TerminatedIsText(lines: seq<bytes>)
    requires lines != []
    ensures Terminated(lines) + CRLF == Text(lines) + TERMINATOR
  {
    if |lines| > 1 {
      TerminatedIsText(lines[1..]);
      calc {
        Terminated(lines) + CRLF;
        lines[0] + CRLF + (Terminated(lines[1..]) + CRLF);
        lines[0] + CRLF + (Text(lines[1..]) + TERMINATOR);
        Text(lines) + TERMINATOR;
      }
    } else {
      assert Terminated(lines[1..]) == [];
      assert lines[0] + CRLF + [] + CRLF == lines[0] + TERMINATOR;
    }
  }

  lemma HeadIsText(header: bytes)
    requires EndsWith(header, TERMINATOR)
    ensures header == Text(HeadLines(header)) + TERMINATOR && NoCRLF(HeadLines(header))
  {
    SplitText(header[..|header| - 4]);
    assert header == header[..|header| - 4] + header[|header| - 4..];
  }

  lemma TextIsHead(lines: seq<bytes>)
    requires lines != [] && NoCRLF(lines)
    ensures EndsWith(Text(lines) + TERMINATOR, TERMINATOR)
    ensures HeadLines(Text(lines) + TERMINATOR) == lines
  {
    var h := Text(lines) + TERMINATOR;
    assert h[|h| - 4..] == TERMINATOR && h[..|h| - 4] == Text(lines);
    TextSplit(lines);
  }

  /** The lines of the rewritten head: request line first, then the ordered lines. */
  lemma OrderedHeadLines(header: bytes, order: Order)
    requires EndsWith(header, TERMINATOR)
    ensures var lines, out := HeadLines(header), OrderedHead(header, order).ordered;
            && EndsWith(out, TERMINATOR)
            && HeadLines(out) == [lines[0]] + OrderedLines(lines[1..], DesiredFor(lines[0], order))
            && out == Text(HeadLines(out)) + TERMINATOR
  {
    hide RequestParts, Split;
    var lines := HeadLines(header);
    var desired := DesiredFor(lines[0], order);
    HeadIsText(header);
    OrderIsStableSort(lines[1..], desired, lines[1..]);
    var ordered := [lines[0]] + OrderedLines(lines[1..], desired);
    if desired == [] {
      UnlistedKeepsOrder(lines[1..]);
      assert lines == [lines[0]] + lines[1..];
    } else {
      forall line | line in ordered ensures line in lines {
        if line in OrderedLines(lines[1..], desired) {
          assert line in multiset(OrderedLines(lines[1..], desired));
          assert line in multiset(lines[1..]);
        }
      }
      TerminatedIsText(ordered);
      TextIsHead(ordered);
    }
  }

  lemma UnlistedKeepsOrder(lines: seq<bytes>)
    ensures OrderedLines(lines, []) == lines
  {
    OrderIsStableSort(lines, [], lines);
  }

  function TotalLength(lines: seq<bytes>): nat {
    if lines == [] then 0 else |lines[0]| + 2 + TotalLength(lines[1..])
  }

  lemma {:induction false} TextLength(lines: seq<bytes>)
    requires lines != []
    ensures |Text(lines)| + 2 == TotalLength(lines)
  {
    if |lines| > 1 {
      TextLength(lines[1..]);
    }
  }

  lemma {:induction false} TotalLengthConcat(a: seq<bytes>, b: seq<bytes>)
    ensures TotalLength(a + b) == TotalLength(a) + TotalLength(b)
  {
    if a == [] {
      assert a + b == b;
    } else {
      assert (a + b)[0] == a[0] && (a + b)[1..] == a[1..] + b;
      TotalLengthConcat(a[1..], b);
    }
  }

  lemma {:induction false} TotalLengthOrdered(lines: seq<bytes>, key: Key, n: nat)
    requires KeysBelow(lines, key, n)
    ensures TotalLength(Buckets(lines, key, n)) == TotalLength(lines)
  {
    if lines == [] {
      BucketsEmpty(key, n);
    } else {
      assert lines == [lines[0]] + lines[1..];
      var before, after := BucketsCons(lines[0], lines[1..], key, n);
      TotalLengthOrdered(lines[1..], key, n);
      TotalLengthConcat(before, after);
      TotalLengthConcat(before + [lines[0]], after);
      TotalLengthConcat(before, [lines[0]]);
    }
  }

  /** A head is as long as its lines are in total. */
  lemma HeadLength(header: bytes)
    requires EndsWith(header, TERMINATOR)
    ensures |header| == TotalLength(HeadLines(header)) + 2
  {
    hide Text, HeadLines;
    HasRequestLine(header);
    HeadIsText(header);
    TextLength(HeadLines(header));
  }

  /** Reordering lines behind a first one keeps them all, and their total length. */
  lemma OrderedPermutes(first: bytes, lines: seq<bytes>, desired: seq<bytes>)
    ensures var ordered := [first] + OrderedLines(lines, desired);
            && multiset(ordered) == multiset([first] + lines)
            && TotalLength(ordered) == TotalLength([first] + lines)
  {
    hide OrderedLines, IsStableSort, Buckets;
    OrderIsStableSort(lines, desired, []);
    OrderedLength(lines, desired);
    TotalLengthConcat([first], lines);
    TotalLengthConcat([first], OrderedLines(lines, desired));
  }

  lemma OrderedLength(lines: seq<bytes>, desired: seq<bytes>)
    ensures TotalLength(OrderedLines(lines, desired)) == TotalLength(lines)
  {
    RanksBelow(lines, desired);
    TotalLengthOrdered(lines, RankBy(desired), |desired| + 1);
  }

  /** Rewriting a head permutes its lines behind the request line and keeps its length. */
  lemma RewritePermutes(header: bytes, order: Order)
    requires EndsWith(header, TERMINATOR)
    ensures var out := OrderedHead(header, order).ordered;
            && EndsWith(out, TERMINATOR)
            && |out| == |header|
            && HeadLines(out)[0] == HeadLines(header)[0]
            && multiset(HeadLines(out)) == multiset(HeadLines(header))
  {
    hide OrderedHead, OrderedLines, DesiredFor, HeadLines, TotalLength;
    var lines := HeadLines(header);
    OrderedHeadLines(header, order);
    HeadLength(header);
    HeadLength(OrderedHead(header, order).ordered);
    HasRequestLine(header);
    OrderedPermutes(lines[0], lines[1..], DesiredFor(lines[0], order));
    assert lines == [lines[0]] + lines[1..];
  }

  lemma HasRequestLine(header: bytes)
    requires EndsWith(header, TERMINATOR)
    ensures HeadLines(header) != []
  {
  }

  /** The rewritten head announces the same body framing, and rewriting it again
      (with the same order) changes nothing more. */
  lemma RewriteIdempotent(header: bytes, order: Order)
    requires EndsWith(header, TERMINATOR)
    ensures var out := OrderedHead(header, order);
            EndsWith(out.ordered, TERMINATOR) && OrderedHead(out.ordered, order) == out
  {
    hide RequestParts, Split, Text;
    var lines := HeadLines(header);
    var desired := DesiredFor(lines[0], order);
    OrderedHeadLines(header, order);
    OrderedHeadLines(OrderedHead(header, order).ordered, order);
    assert ([lines[0]] + OrderedLines(lines[1..], desired))[1..] == OrderedLines(lines[1..], desired);
    BucketsIdempotent(lines[1..], RankBy(desired), |desired| + 1);
    OrderKeepsFraming(lines[1..], desired);
  }

  // ----- the end of the head -----

  ghost predicate NoEmptyHeader(lines: seq<bytes>) {
    forall j :: 1 <= j < |lines| ==> lines[j] != []
  }

  /** The head's own terminator is the first one exactly when no header line is empty. */
  lemma {:induction false} HeadEndsAtFirstTerminator(lines: seq<bytes>)
    requires lines != [] && NoCRLF(lines)
    ensures Index(Text(lines) + TERMINATOR, TERMINATOR) == |Text(lines)| <==> NoEmptyHeader(lines)
  {
    var line, s := lines[0], Text(lines) + TERMINATOR;
    if |lines| == 1 {
      assert s == line + CRLF + CRLF;
      TerminatorAfterLine(line, CRLF);
      assert s[|line|..] == TERMINATOR;
      IndexIsFirst(s, TERMINATOR);
      assert OccursAt(s, TERMINATOR, |line|);
    } else {
      var rest := Text(lines[1..]) + TERMINATOR;
      assert s == line + CRLF + rest;
      HeadEndsAtFirstTerminator(lines[1..]);
      TerminatorAfterLine(line, rest);
      var tail := if |lines| == 2 then CRLF else Text(lines[2..]) + TERMINATOR;
      assert lines[1..][1..] == lines[2..];
      assert rest == lines[1] + CRLF + tail;
      IndexAfterLine(lines[1], tail);
      IndexIsFirst(rest, CRLF);
      assert rest[..2] == rest[0..0 + 2];
      assert OccursAt(rest, CRLF, 0) <==> rest[..2] == CRLF;
      assert NoEmptyHeader(lines) <==> lines[1] != [] && NoEmptyHeader(lines[1..]) by {
        assert forall j :: 1 <= j < |lines| - 1 ==> lines[1..][j] == lines[j + 1];
        assert forall j :: 2 <= j < |lines| ==> lines[j] == lines[1..][j - 1];
      }
    }
  }

  lemma OccursTerminator(s: bytes, j: nat)
    ensures OccursAt(s, TERMINATOR, j) <==>
            j + 4 <= |s| && s[j] == CR && s[j + 1] == LF && s[j + 2] == CR && s[j + 3] == LF
  {
    if j + 4 <= |s| {
      assert s[j..j + 4] == [s[j], s[j + 1], s[j + 2], s[j + 3]];
    }
  }

  /** Where terminators can begin in a CRLF-ended line followed by more text. */
  lemma TerminatorPlaces(line: bytes, rest: bytes, j: nat)
    requires Index(line, CRLF) < 0
    ensures OccursAt(line + CRLF + rest, TERMINATOR, j) <==>
            (j == |line| && |rest| >= 2 && rest[..2] == CRLF)
            || (j >= |line| + 2 && OccursAt(rest, TERMINATOR, j - |line| - 2))
  {
    var s := line + CRLF + rest;
    OccursTerminator(s, j);
    if j >= |line| + 2 {
      assert s[|line| + 2..] == rest;
      OccursInSuffix(s, TERMINATOR, |line| + 2, j - |line| - 2);
    } else if j < |line| {
      IndexAfterLine(line, rest);
      IndexIsFirst(s, CRLF);
      assert !OccursAt(s, CRLF, j);
      assert s[j..j + 2] == [s[j], s[j + 1]];
    } else if |rest| >= 2 {
      assert rest[..2] == [rest[0], rest[1]];
    }
  }

  /** The first terminator of a CRLF-ended line followed by more text. */
  lemma TerminatorAfterLine(line: bytes, rest: bytes)
    requires Index(line, CRLF) < 0
    ensures var i, s := Index(rest, TERMINATOR), line + CRLF + rest;
            Index(s, TERMINATOR) == if |rest| >= 2 && rest[..2] == CRLF then |line|
                                    else if i < 0 then -1 else |line| + 2 + i
  {
    var s := line + CRLF + rest;
    IndexIsFirst(s, TERMINATOR);
    IndexIsFirst(rest, TERMINATOR);
    forall j: nat ensures OccursAt(s, TERMINATOR, j) <==>
        (j == |line| && |rest| >= 2 && rest[..2] == CRLF)
        || (j >= |line| + 2 && OccursAt(rest, TERMINATOR, j - |line| - 2))
    {
      TerminatorPlaces(line, rest, j);
    }
    hide OccursAt;
    var i, k := Index(rest, TERMINATOR), Index(s, TERMINATOR);
    if |rest| >= 2 && rest[..2] == CRLF {
      assert OccursAt(s, TERMINATOR, |line|);
    } else if i >= 0 {
      assert OccursAt(s, TERMINATOR, |line| + 2 + i);
    }
    if k >= |line| + 2 {
      assert OccursAt(rest, TERMINATOR, k - |line| - 2);
    }
  }

  /** A head that ends at its first blank line is rewritten to one that does. */
  lemma RewriteKeepsHeadEnd(header: bytes, order: Order)
    requires EndsWith(header, TERMINATOR) && Index(header, TERMINATOR) == |header| - 4
    ensures var out := OrderedHead(header, order).ordered;
            |out| == |header| && Index(out, TERMINATOR) == |out| - 4
  {
    hide RequestParts, Split, Text, Terminated;
    var lines := HeadLines(header);
    var desired := DesiredFor(lines[0], order);
    var ordered := OrderedLines(lines[1..], desired);
    HeadIsText(header);
    HeadEndsAtFirstTerminator(lines);
    RewritePermutes(header, order);
    OrderedHeadLines(header, order);
    HeadIsText(OrderedHead(header, order).ordered);
    OrderIsStableSort(lines[1..], desired, []);
    forall j | 1 <= j < |ordered| + 1 ensures ([lines[0]] + ordered)[j] != [] {
      assert ordered[j - 1] in multiset(ordered);
      assert ordered[j - 1] in lines[1..];
    }
    HeadEndsAtFirstTerminator([lines[0]] + ordered);
  }
}
