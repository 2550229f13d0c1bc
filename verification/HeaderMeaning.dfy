/** What the parts of a head mean to the rewriter, said of heads as they are written: the request line, names and values,
    and the lines that announce a body. */
module HeaderMeaning {
  import opened Bytes
  import opened Numbers
  import opened StableOrder
  import opened HeaderOrder
  import opened HeaderFacts

  const SPACE: byte := 32
  const COLON: byte := 58
  const COMMA: byte := 44

  // ----- the request line -----

  function RequestLine(verb: bytes, target: bytes, version: bytes): bytes {
    verb + [SPACE] + target + [SPACE] + version
  }

  lemma IndexByteIs(s: bytes, b: byte, i: nat)
    requires i < |s| && s[i] == b && forall j :: 0 <= j < i ==> s[j] != b
    ensures IndexByte(s, b) == i
  {
    IndexByteIsFirst(s, b);
  }

  lemma IndexByteIsNone(s: bytes, b: byte)
    requires b !in s
    ensures IndexByte(s, b) < 0
  {
    IndexByteIsFirst(s, b);
  }

  /** A request line has its method before the first space and its target before the second. */
  lemma PartsOfLine(verb: bytes, target: bytes, version: bytes)
    requires SPACE !in verb && SPACE !in target
    ensures RequestParts(RequestLine(verb, target, version)) == Some((verb, target))
  {
    var line := RequestLine(verb, target, version);
    var behind := target + [SPACE] + version;
    assert line == verb + ([SPACE] + behind);
    assert forall j :: 0 <= j < |verb| ==> line[j] == verb[j];
    IndexByteIs(line, SPACE, |verb|);
    assert line[|verb| + 1..] == behind && line[..|verb|] == verb;
    assert forall j :: 0 <= j < |target| ==> behind[j] == target[j];
    IndexByteIs(behind, SPACE, |target|);
    assert behind[..|target|] == target;
  }

  /** No two spaces stand in a line. */
  predicate FewSpaces(line: bytes) {
    forall i :: 0 <= i < |line| && line[i] == SPACE ==> SPACE !in line[i + 1..]
  }

  lemma NoPartsWithoutSpaces(line: bytes)
    requires FewSpaces(line)
    ensures RequestParts(line) == None
  {
    IndexByteIsFirst(line, SPACE);
    var i := IndexByte(line, SPACE);
    if i >= 0 {
      IndexByteIsNone(line[i + 1..], SPACE);
    }
  }

  /** The order function is asked about the method and the target of the request line, and the fields behind it go out in
      the stable sort by the order it desires. */
  lemma AsksForItsOrder(order: Order, verb: bytes, target: bytes, version: bytes, fields: seq<bytes>)
    returns (sorted: seq<bytes>)
    requires SPACE !in verb && SPACE !in target
    requires NoCRLF([RequestLine(verb, target, version)] + fields)
    ensures IsStableSort(fields, RankBy(order(verb, target)), sorted) && multiset(sorted) == multiset(fields)
    ensures sorted == OrderedLines(fields, order(verb, target))
    ensures var line := RequestLine(verb, target, version);
            var head := Text([line] + fields) + TERMINATOR;
            EndsWith(head, TERMINATOR) && OrderedHead(head, order).ordered == Text([line] + sorted) + TERMINATOR
  {
    hide RequestLine, RequestParts, OrderedLines, IsStableSort, Text, HeadLines;
    var line := RequestLine(verb, target, version);
    var head := Text([line] + fields) + TERMINATOR;
    sorted := OrderedLines(fields, order(verb, target));
    OrderIsStableSort(fields, order(verb, target), sorted);
    PartsOfLine(verb, target, version);
    TextIsHead([line] + fields);
    OrderedHeadLines(head, order);
    assert ([line] + fields)[1..] == fields;
  }

  /** A head whose first line is no request line goes out as it is, and so does one for which no order is desired. */
  lemma OtherHeadsStay(order: Order, line: bytes, fields: seq<bytes>)
    requires NoCRLF([line] + fields)
    requires FewSpaces(line)
    ensures var head := Text([line] + fields) + TERMINATOR;
            EndsWith(head, TERMINATOR) && OrderedHead(head, order).ordered == head
  {
    hide RequestParts, Text, HeadLines, FewSpaces;
    NoPartsWithoutSpaces(line);
    TextIsHead([line] + fields);
  }

  lemma UndesiredHeadsStay(order: Order, verb: bytes, target: bytes, version: bytes, fields: seq<bytes>)
    requires SPACE !in verb && SPACE !in target && order(verb, target) == []
    requires NoCRLF([RequestLine(verb, target, version)] + fields)
    ensures var head := Text([RequestLine(verb, target, version)] + fields) + TERMINATOR;
            EndsWith(head, TERMINATOR) && OrderedHead(head, order).ordered == head
  {
    hide RequestLine, RequestParts, Text, HeadLines;
    PartsOfLine(verb, target, version);
    TextIsHead([RequestLine(verb, target, version)] + fields);
  }

  // ----- names -----

  /** An upper-case letter and its lower-case form. */
  predicate CasePair(a: byte, b: byte) {
    65 <= a <= 90 && b == a + 32
  }

  /** Two names are taken for the same exactly when they differ in the case of letters only. */
  lemma FoldMeans(a: bytes, b: bytes)
    ensures EqualFold(a, b) <==>
              |a| == |b| && forall i :: 0 <= i < |a| ==> a[i] == b[i] || CasePair(a[i], b[i]) || CasePair(b[i], a[i])
  {
    assert forall x: byte, y: byte :: Lower(x) == Lower(y) <==> x == y || CasePair(x, y) || CasePair(y, x);
  }

  /** A line has a name exactly when what stands before its first colon is that name in some case. */
  lemma NamedMeans(name: bytes, value: bytes, known: bytes)
    requires COLON !in name
    ensures HeaderLineNamed(name + [COLON] + value, known) <==> name != [] && EqualFold(name, known)
    ensures HeaderValue(name + [COLON] + value) == value
  {
    var line := name + [COLON] + value;
    assert forall j :: 0 <= j < |name| ==> line[j] == name[j];
    IndexByteIs(line, COLON, |name|);
    assert line[..|name|] == name && line[|name| + 1..] == value;
  }

  lemma NamelessLines(line: bytes, known: bytes)
    requires COLON !in line
    ensures !HeaderLineNamed(line, known)
  {
    IndexByteIsNone(line, COLON);
  }

  /** The rank of a line is the first place of its name in the desired list, and behind all places if it is not there. */
  lemma {:induction false} RankMeans(line: bytes, desired: seq<bytes>)
    ensures var r := RankBy(desired)(line);
            && r <= |desired| && (r < |desired| ==> HeaderLineNamed(line, desired[r]))
            && forall j :: 0 <= j < r ==> !HeaderLineNamed(line, desired[j])
  {
    hide HeaderLineNamed;
    if desired != [] && !HeaderLineNamed(line, desired[0]) {
      RankMeans(line, desired[1..]);
      forall j | 0 <= j < RankBy(desired)(line) ensures !HeaderLineNamed(line, desired[j]) {
        assert j > 0 ==> desired[j] == desired[1..][j - 1];
      }
    }
  }

  // ----- the body announced -----

  /** Only the first Content-Length line counts, and only if it is a positive number. */
  lemma {:induction false} FirstLengthCounts(above: seq<bytes>, name: bytes, value: bytes, below: seq<bytes>)
    requires forall line :: line in above ==> !HeaderLineNamed(line, CONTENT_LENGTH)
    requires COLON !in name && name != [] && EqualFold(name, CONTENT_LENGTH)
    ensures var length := ParseInt(TrimSpace(value), Ten);
            ContentLength(above + [name + [COLON] + value] + below) ==
              if length.Some? && length.value > 0 then length.value else 0
    decreases |above|
  {
    hide HeaderLineNamed, ParseInt, TrimSpace, EqualFold, HeaderValue;
    var lines := above + [name + [COLON] + value] + below;
    if above == [] {
      NamedMeans(name, value, CONTENT_LENGTH);
      assert lines[0] == name + [COLON] + value;
    } else {
      assert lines[0] in above && lines[1..] == above[1..] + [name + [COLON] + value] + below;
      FirstLengthCounts(above[1..], name, value, below);
    }
  }

  lemma {:induction false} NoLengthLine(lines: seq<bytes>)
    requires forall line :: line in lines ==> !HeaderLineNamed(line, CONTENT_LENGTH)
    ensures ContentLength(lines) == 0
  {
    hide HeaderLineNamed;
    if lines != [] {
      assert lines[0] in lines;
      NoLengthLine(lines[1..]);
    }
  }

  /** One element of a list with commas between its elements: it stands between two commas or ends, and holds none. */
  predicate Element(value: bytes, i: nat, j: nat) {
    && i <= j <= |value| && COMMA !in value[i..j]
    && (i == 0 || value[i - 1] == COMMA) && (j == |value| || value[j] == COMMA)
  }

  ghost predicate IsChunkedCoding(value: bytes, i: nat, j: nat) {
    Element(value, i, j) && EqualFold(TrimSpace(value[i..j]), CHUNKED)
  }

  /** A list of codings mentions "chunked" exactly when one of its elements is that word, trimmed and in any case. */
  lemma {:induction false} MentionsMeans(value: bytes)
    ensures MentionsChunked(value) <==> exists i: nat, j: nat :: IsChunkedCoding(value, i, j)
    decreases |value|
  {
    hide TrimSpace, EqualFold, Element;
    var comma := IndexByte(value, COMMA);
    FirstElement(value);
    if comma < 0 {
      assert value[0..|value|] == value;
      if i: nat, j: nat :| IsChunkedCoding(value, i, j) {
        assert i == 0 && j == |value|;
      }
      assert MentionsChunked(value) ==> IsChunkedCoding(value, 0, |value|);
    } else {
      var rest := value[comma + 1..];
      MentionsMeans(rest);
      assert value[0..comma] == value[..comma];
      if i: nat, j: nat :| IsChunkedCoding(rest, i, j) {
        ElementBehind(value, i, j);
        assert IsChunkedCoding(value, comma + 1 + i, comma + 1 + j);
      }
      if EqualFold(TrimSpace(value[..comma]), CHUNKED) {
        assert IsChunkedCoding(value, 0, comma);
      }
      if i: nat, j: nat :| IsChunkedCoding(value, i, j) && i > 0 {
        assert i > comma;
        ElementBehind(value, i - comma - 1, j - comma - 1);
        assert IsChunkedCoding(rest, i - comma - 1, j - comma - 1);
      }
    }
  }

  /** The first element goes up to the first comma, and every other one begins behind it. */
  lemma FirstElement(value: bytes)
    ensures var comma := IndexByte(value, COMMA);
            var end := if comma < 0 then |value| else comma;
            && Element(value, 0, end)
            && forall i: nat, j: nat :: Element(value, i, j) ==> i <= j && if i == 0 then j == end else comma >= 0 && i > comma
  {
    IndexByteIsFirst(value, COMMA);
    var comma := IndexByte(value, COMMA);
    var end := if comma < 0 then |value| else comma;
    forall k | 0 <= k < end ensures value[0..end][k] != COMMA {
    }
    forall j, k | 0 <= k < j <= |value| ensures value[k] in value[0..j] {
      assert value[0..j][k] == value[k];
    }
  }

  lemma Slice(value: bytes, n: nat, i: nat, j: nat)
    requires n <= |value| && i <= j <= |value| - n
    ensures value[n..][i..j] == value[n + i..n + j]
  {
  }

  lemma ElementBehind(value: bytes, i: nat, j: nat)
    requires IndexByte(value, COMMA) >= 0
    ensures var comma := IndexByte(value, COMMA);
            && (Element(value[comma + 1..], i, j) <==> Element(value, comma + 1 + i, comma + 1 + j))
            && (Element(value[comma + 1..], i, j) ==> value[comma + 1..][i..j] == value[comma + 1 + i..comma + 1 + j])
  {
    hide IndexByte;
    var n := IndexByte(value, COMMA) + 1;
    IndexByteIsFirst(value, COMMA);
    if i <= j <= |value| - n {
      Slice(value, n, i, j);
      assert i > 0 ==> value[n..][i - 1] == value[n + i - 1];
      assert j < |value| - n ==> value[n..][j] == value[n + j];
    }
  }
}
