/** Rewriting one HTTP/1.1 request head: the header lines are put into the desired order,
    everything else stays, and the body framing is read off the lines. */
module HeaderOrder {
  import opened Bytes
  import opened Numbers
  import opened StableOrder

  /** RequestHeaderOrder: the desired header names for a method and a request target. */
  type Order = (bytes, bytes) -> seq<bytes>

  /** bytes.Split(s, CRLF) */
  function Split(s: bytes): (lines: seq<bytes>)
    ensures lines != []
    decreases |s|
  {
    var i := Index(s, CRLF);
    if i < 0 then [s] else [s[..i]] + Split(s[i + 2..])
  }

  /** Lines joined by CRLF. */
  function Text(lines: seq<bytes>): bytes
    requires lines != []
  {
    if |lines| == 1 then lines[0] else lines[0] + CRLF + Text(lines[1..])
  }

  /** What the output buffer holds: every line followed by CRLF. */
  function Terminated(lines: seq<bytes>): bytes {
    if lines == [] then [] else lines[0] + CRLF + Terminated(lines[1..])
  }

  /** The method and target of a request line with three space-separated parts. */
  function RequestParts(line: bytes): Option<(bytes, bytes)> {
    var i := IndexByte(line, 32);
    if i < 0 then None
    else
      var j := IndexByte(line[i + 1..], 32);
      if j < 0 then None else Some((line[..i], line[i + 1..][..j]))
  }

  predicate HeaderLineNamed(line: bytes, name: bytes) {
    var colon := IndexByte(line, 58);
    colon > 0 && EqualFold(line[..colon], name)
  }

  /** The first place of a line's name in the desired list; unlisted lines come after all listed ones. */
  function Rank(line: bytes, desired: seq<bytes>): (r: nat)
    ensures r <= |desired|
  {
    if desired == [] then 0
    else if HeaderLineNamed(line, desired[0]) then 0
    else 1 + Rank(line, desired[1..])
  }

  function RankBy(desired: seq<bytes>): Key {
    line => Rank(line, desired)
  }

  function OrderedLines(lines: seq<bytes>, desired: seq<bytes>): seq<bytes> {
    Buckets(lines, RankBy(desired), |desired| + 1)
  }

  const CONTENT_LENGTH := Ascii("Content-Length")
  const TRANSFER_ENCODING := Ascii("Transfer-Encoding")
  const CHUNKED := Ascii("chunked")

  function HeaderValue(line: bytes): bytes {
    line[IndexByte(line, 58) + 1..]
  }

  /** requestContentLength: only the first Content-Length line counts; a bad or negative value is 0. */
  function ContentLength(lines: seq<bytes>): nat {
    if lines == [] then 0
    else if !HeaderLineNamed(lines[0], CONTENT_LENGTH) then ContentLength(lines[1..])
    else
      var length := ParseInt(TrimSpace(HeaderValue(lines[0])), Ten);
      if length.Some? && length.value > 0 then length.value else 0
  }

  predicate MentionsChunked(value: bytes)
    decreases |value|
  {
    var comma := IndexByte(value, 44);
    if comma < 0 then EqualFold(TrimSpace(value), CHUNKED)
    else EqualFold(TrimSpace(value[..comma]), CHUNKED) || MentionsChunked(value[comma + 1..])
  }

  /** requestUsesChunkedEncoding */
  predicate UsesChunked(lines: seq<bytes>) {
    exists line :: line in lines && HeaderLineNamed(line, TRANSFER_ENCODING) && MentionsChunked(HeaderValue(line))
  }

  /** The rewritten head and the framing of the body behind it. */
  datatype Head = Head(ordered: bytes, contentLength: nat, chunked: bool)

  function HeadLines(header: bytes): seq<bytes>
    requires EndsWith(header, TERMINATOR)
  {
    Split(header[..|header| - 4])
  }

  function DesiredFor(line: bytes, order: Order): seq<bytes> {
    var parts := RequestParts(line);
    if parts.None? then [] else order(parts.value.0, parts.value.1)
  }

  /** orderRequestHeader */
  function OrderedHead(header: bytes, order: Order): Head
    requires EndsWith(header, TERMINATOR)
  {
    var lines := HeadLines(header);
    var desired := DesiredFor(lines[0], order);
    Head(if desired == [] then header else Terminated([lines[0]] + OrderedLines(lines[1..], desired)) + CRLF,
         ContentLength(lines[1..]), UsesChunked(lines[1..]))
  }

  // ----- the loops of orderRequestHeader -----

  /** Lines taken so far in the pass for rank r: exactly that bucket of the lines seen. */
  lemma BucketSnoc(lines: seq<bytes>, key: Key, r: nat, n: nat)
    requires n < |lines|
    ensures Bucket(lines[..n + 1], key, r) == Bucket(lines[..n], key, r) + if key(lines[n]) == r then [lines[n]] else []
  {
    assert lines[..n + 1] == lines[..n] + [lines[n]];
    BucketConcat(lines[..n], [lines[n]], key, r);
    assert [lines[n]][1..] == [];
  }

  lemma {:induction false} RankIs(line: bytes, desired: seq<bytes>, i: nat)
    requires i < |desired|
    ensures RankBy(desired)(line) == i <==> RankBy(desired)(line) >= i && HeaderLineNamed(line, desired[i])
  {
    if i > 0 && !HeaderLineNamed(line, desired[0]) {
      RankIs(line, desired[1..], i - 1);
    }
  }

  lemma RanksAndEmptyBuckets(desired: seq<bytes>)
    ensures forall line :: RankBy(desired)(line) <= |desired|
    ensures forall r: nat :: Bucket([], RankBy(desired), r) == []
  {
  }

  method OrderLines(headerLines: seq<bytes>, desired: seq<bytes>) returns (orderedLines: seq<bytes>)
    ensures orderedLines == OrderedLines(headerLines, desired)
  {
    RanksAndEmptyBuckets(desired);
    hide Rank, RankBy, HeaderLineNamed, Bucket;
    var n := |headerLines|;
    var used := new bool[n](_ => false);
    orderedLines := [];
    ghost var key := RankBy(desired);
    for i := 0 to |desired|
      invariant forall k :: 0 <= k < n ==> (used[k] <==> key(headerLines[k]) < i)
      invariant orderedLines == Buckets(headerLines, key, i)
    {
      assert headerLines[..0] == [];
      for index := 0 to n
        invariant forall k :: 0 <= k < n ==> (used[k] <==> key(headerLines[k]) < i || (k < index && key(headerLines[k]) == i))
        invariant orderedLines == Buckets(headerLines, key, i) + Bucket(headerLines[..index], key, i)
      {
        RankIs(headerLines[index], desired, i);
        BucketSnoc(headerLines, key, i, index);
        if used[index] || !HeaderLineNamed(headerLines[index], desired[i]) {
          continue;
        }
        orderedLines := orderedLines + [headerLines[index]];
        used[index] := true;
      }
      assert headerLines[..n] == headerLines;
    }
    assert headerLines[..0] == [];
    for index := 0 to n
      invariant forall k :: 0 <= k < n ==> (used[k] <==> key(headerLines[k]) < |desired|)
      invariant orderedLines == Buckets(headerLines, key, |desired|) + Bucket(headerLines[..index], key, |desired|)
    {
      BucketSnoc(headerLines, key, |desired|, index);
      if !used[index] {
        orderedLines := orderedLines + [headerLines[index]];
      }
    }
    assert headerLines[..n] == headerLines;
  }

  lemma {:induction false} TerminatedSnoc(lines: seq<bytes>, line: bytes)
    ensures Terminated(lines + [line]) == Terminated(lines) + line + CRLF
  {
    if lines == [] {
      assert Terminated([line]) == line + CRLF + Terminated([line][1..]);
    } else {
      assert (lines + [line])[1..] == lines[1..] + [line];
      TerminatedSnoc(lines[1..], line);
      assert lines[0] + CRLF + (Terminated(lines[1..]) + line + CRLF) == Terminated(lines) + line + CRLF;
    }
  }

  method OrderRequestHeader(header: bytes, order: Order) returns (ordered: bytes, contentLength: nat, chunked: bool)
    requires EndsWith(header, TERMINATOR)
    ensures Head(ordered, contentLength, chunked) == OrderedHead(header, order)
  {
    var lines := Split(header[..|header| - 4]);
    var headerLines := lines[1..];
    contentLength, chunked := ContentLength(headerLines), UsesChunked(headerLines);
    var requestParts := RequestParts(lines[0]);
    if requestParts.None? {
      return header, contentLength, chunked;
    }
    var desired := order(requestParts.value.0, requestParts.value.1);
    if |desired| == 0 {
      return header, contentLength, chunked;
    }
    var rest := OrderLines(headerLines, desired);
    var orderedLines := [lines[0]] + rest;
    var output := [];
    for k := 0 to |orderedLines|
      invariant output == Terminated(orderedLines[..k])
    {
      assert orderedLines[..k + 1] == orderedLines[..k] + [orderedLines[k]];
      TerminatedSnoc(orderedLines[..k], orderedLines[k]);
      output := output + orderedLines[k];
      output := output + CRLF;
    }
    assert orderedLines[..|orderedLines|] == orderedLines;
    ordered := output + CRLF;
  }
}
