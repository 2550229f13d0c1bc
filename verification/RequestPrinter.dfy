/** A printer of whole HTTP/1.1 requests: a request line, header lines, and a body framed by one decimal Content-Length
    or by a final chunked coding (RFC 9112, sections 3, 5 and 6).  Whatever it prints is well-formed to the rewriter. */
module RequestPrinter {
  import opened Bytes
  import opened Numbers
  import opened HeaderOrder
  import opened HeaderFacts
  import opened HeaderMeaning
  import opened OrderedConn
  import opened WireMachine
  import opened WireStream
  import CP = ChunkPrinter
  import ChunkGrammar

  /** The line that announces the body, and the body.  The name and "chunked" may be in any case; white space may stand
      around the value; other codings, each with its comma, may stand before "chunked". */
  datatype Framing =
    | NoBody
    | ByLength(name: bytes, before: bytes, digits: bytes, after: bytes, data: bytes)
    | ByChunks(name: bytes, codings: bytes, before: bytes, coding: bytes, after: bytes, body: CP.Body)

  datatype Message =
    Message(verb: bytes, target: bytes, version: bytes, above: seq<bytes>, framing: Framing, below: seq<bytes>)

  function FirstLine(m: Message): bytes {
    RequestLine(m.verb, m.target, m.version)
  }

  function FramingLines(f: Framing): seq<bytes> {
    match f
    case NoBody => []
    case ByLength(name, before, digits, after, _) => [name + [COLON] + (before + digits + after)]
    case ByChunks(name, codings, before, coding, after, _) => [name + [COLON] + (codings + (before + coding + after))]
  }

  function Fields(m: Message): seq<bytes> {
    m.above + FramingLines(m.framing) + m.below
  }

  function Printed(m: Message): Request {
    Request(Text([FirstLine(m)] + Fields(m)) + TERMINATOR, BodyOf(m.framing))
  }

  function BodyOf(f: Framing): bytes {
    match f
    case NoBody => []
    case ByLength(_, _, _, _, data) => data
    case ByChunks(_, _, _, _, _, body) => CP.Encode(body)
  }

  ghost predicate Spaces(s: bytes) {
    forall b :: b in s ==> b == 32 || b == 9
  }

  ghost predicate FramingOk(f: Framing) {
    match f
    case NoBody => true
    case ByLength(name, before, digits, after, data) =>
      && EqualFold(name, CONTENT_LENGTH) && Spaces(before) && Spaces(after)
      && digits != [] && IsDigits(digits, Ten) && DigitsValue(digits, Ten) == |data| <= MAX_INT64
    case ByChunks(name, codings, before, coding, after, body) =>
      && EqualFold(name, TRANSFER_ENCODING) && EndsInComma(codings)
      && Spaces(before) && EqualFold(coding, CHUNKED) && Spaces(after) && CP.BodyOk(body)
  }

  /** A line that says nothing about the body. */
  predicate Plain(line: bytes) {
    line != [] && !HeaderLineNamed(line, CONTENT_LENGTH) && !HeaderLineNamed(line, TRANSFER_ENCODING)
  }

  ghost predicate MessageOk(m: Message) {
    && SPACE !in m.verb && SPACE !in m.target
    && FramingOk(m.framing) && NoCRLF([FirstLine(m)] + Fields(m))
    && (forall line :: line in m.above + m.below ==> Plain(line))
    && |Printed(m).head| <= MAX_HEADER
  }

  // ----- names and values -----

  lemma PlainNames()
    ensures COLON !in CONTENT_LENGTH && COLON !in TRANSFER_ENCODING && |CONTENT_LENGTH| == 14 && |TRANSFER_ENCODING| == 17
    ensures |CHUNKED| == 7 && forall b :: b in CHUNKED ==> 97 <= b <= 122
  {
  }

  lemma NoColon(name: bytes, known: bytes)
    requires EqualFold(name, known) && COLON !in known
    ensures COLON !in name
  {
    forall i | 0 <= i < |name| ensures name[i] != COLON {
      assert Lower(name[i]) == Lower(known[i]) && known[i] in known;
    }
  }

  /** A line with this name before its colon. */
  lemma NamedLine(name: bytes, value: bytes, known: bytes, other: bytes)
    requires EqualFold(name, known) && COLON !in known && known != [] && |other| != |known|
    ensures var line := name + [COLON] + value;
            HeaderLineNamed(line, known) && !HeaderLineNamed(line, other) && HeaderValue(line) == value
  {
    var line := name + [COLON] + value;
    NoColon(name, known);
    IndexByteIsFirst(line, COLON);
    assert line[|name|] == COLON;
    assert forall j :: 0 <= j < |name| ==> line[j] == name[j];
    assert IndexByte(line, COLON) == |name|;
    assert line[..|name|] == name && line[|name| + 1..] == value;
  }

  lemma Trimmed(before: bytes, text: bytes, after: bytes)
    requires Spaces(before) && Spaces(after) && text != [] && forall b :: b in text ==> !IsSpace(b)
    ensures TrimSpace(before + text + after) == text
  {
    assert before + text + after == before + (text + after);
    TrimLeftOf(before, text + after);
    TrimRightOf(text, after);
  }

  lemma DigitsAreVisible(digits: bytes)
    requires IsDigits(digits, Ten)
    ensures forall b :: b in digits ==> !IsSpace(b) && b != 43 && b != 45
  {
  }

  predicate EndsInComma(codings: bytes) {
    codings == [] || codings[|codings| - 1] == COMMA
  }

  /** The first coding goes up to the first comma, and the others again end in a comma. */
  lemma FirstCoding(codings: bytes, last: bytes)
    requires codings != [] && EndsInComma(codings)
    ensures var comma := IndexByte(codings + last, COMMA);
            && 0 <= comma < |codings| && EndsInComma(codings[comma + 1..])
            && (codings + last)[comma + 1..] == codings[comma + 1..] + last
  {
    var value := codings + last;
    IndexByteIsFirst(value, COMMA);
    assert value[|codings| - 1] == COMMA;
  }

  lemma NoComma(last: bytes)
    requires COMMA !in last
    ensures IndexByte(last, COMMA) < 0
  {
    IndexByteIsFirst(last, COMMA);
  }

  /** A list of codings that ends with "chunked" mentions it. */
  lemma {:induction false} LastIsMentioned(codings: bytes, last: bytes)
    requires EndsInComma(codings) && COMMA !in last && EqualFold(TrimSpace(last), CHUNKED)
    ensures MentionsChunked(codings + last)
    decreases |codings|
  {
    hide TrimSpace, EqualFold, IndexByte, EndsInComma;
    if codings == [] {
      assert codings + last == last;
      NoComma(last);
    } else {
      FirstCoding(codings, last);
      LastIsMentioned(codings[IndexByte(codings + last, COMMA) + 1..], last);
    }
  }

  lemma ChunkedIsMentioned(codings: bytes, before: bytes, coding: bytes, after: bytes)
    requires EndsInComma(codings)
    requires Spaces(before) && Spaces(after) && EqualFold(coding, CHUNKED)
    ensures MentionsChunked(codings + (before + coding + after))
  {
    PlainNames();
    forall i | 0 <= i < |coding| ensures !IsSpace(coding[i]) && coding[i] != COMMA {
      assert Lower(coding[i]) == Lower(CHUNKED[i]) && CHUNKED[i] in CHUNKED;
    }
    Trimmed(before, coding, after);
    LastIsMentioned(codings, before + coding + after);
  }

  // ----- what the rewriter reads off the lines -----

  lemma {:induction false} PlainSkipped(above: seq<bytes>, rest: seq<bytes>)
    requires forall line :: line in above ==> Plain(line)
    ensures ContentLength(above + rest) == ContentLength(rest)
    decreases |above|
  {
    hide HeaderLineNamed;
    if above == [] {
      assert above + rest == rest;
    } else {
      assert Plain(above[0]) && (above + rest)[1..] == above[1..] + rest;
      PlainSkipped(above[1..], rest);
    }
  }

  lemma NoneChunked(lines: seq<bytes>)
    requires forall line :: line in lines ==> !HeaderLineNamed(line, TRANSFER_ENCODING)
    ensures !UsesChunked(lines)
  {
  }

  lemma LengthLine(f: Framing)
    requires FramingOk(f) && f.ByLength?
    ensures var line := FramingLines(f)[0];
            && HeaderLineNamed(line, CONTENT_LENGTH) && !HeaderLineNamed(line, TRANSFER_ENCODING)
            && ParseInt(TrimSpace(HeaderValue(line)), Ten) == Some(|f.data|)
  {
    hide HeaderLineNamed, ParseInt, TrimSpace, HeaderValue, DigitsValue, IsDigits, EqualFold;
    PlainNames();
    NamedLine(f.name, f.before + f.digits + f.after, CONTENT_LENGTH, TRANSFER_ENCODING);
    DigitsAreVisible(f.digits);
    Trimmed(f.before, f.digits, f.after);
    ParsedDigits(f.digits);
  }

  lemma LengthIsRead(m: Message)
    requires MessageOk(m) && m.framing.ByLength?
    ensures ContentLength(Fields(m)) == |m.framing.data| && !UsesChunked(Fields(m))
  {
    hide HeaderLineNamed, ParseInt, TrimSpace, HeaderValue, Index, Text, FramingOk, UsesChunked;
    var line := FramingLines(m.framing)[0];
    LengthLine(m.framing);
    PlainAround(m);
    assert Fields(m) == m.above + ([line] + m.below);
    PlainSkipped(m.above, [line] + m.below);
    forall field | field in Fields(m) ensures !HeaderLineNamed(field, TRANSFER_ENCODING) {
      assert field in m.above || field == line || field in m.below;
    }
    NoneChunked(Fields(m));
  }

  lemma PlainAround(m: Message)
    requires MessageOk(m)
    ensures forall line :: line in m.above ==> Plain(line)
    ensures forall line :: line in m.below ==> Plain(line)
  {
    hide Plain, FramingOk, NoCRLF, Printed;
    assert forall line :: line in m.above || line in m.below ==> line in m.above + m.below;
  }

  lemma ParsedDigits(digits: bytes)
    requires digits != [] && IsDigits(digits, Ten) && DigitsValue(digits, Ten) <= MAX_INT64
    ensures ParseInt(digits, Ten) == Some(DigitsValue(digits, Ten))
  {
    assert digits[0] != 43 && digits[0] != 45;
  }

  lemma ChunkedIsRead(m: Message)
    requires MessageOk(m) && m.framing.ByChunks?
    ensures UsesChunked(Fields(m))
  {
    hide HeaderLineNamed, MentionsChunked, Index, Text;
    var f := m.framing;
    var line := FramingLines(f)[0];
    PlainNames();
    NamedLine(f.name, f.codings + (f.before + f.coding + f.after), TRANSFER_ENCODING, CONTENT_LENGTH);
    ChunkedIsMentioned(f.codings, f.before, f.coding, f.after);
    assert Fields(m)[|m.above|] == line;
  }

  lemma NothingIsRead(m: Message)
    requires MessageOk(m) && m.framing.NoBody?
    ensures ContentLength(Fields(m)) == 0 && !UsesChunked(Fields(m))
  {
    hide HeaderLineNamed, Index, Text;
    assert Fields(m) == m.above + m.below;
    assert Fields(m) + [] == Fields(m);
    PlainSkipped(Fields(m), []);
    NoneChunked(Fields(m));
  }

  // ----- well-formedness -----

  lemma FieldsNotEmpty(m: Message)
    requires MessageOk(m)
    ensures NoEmptyHeader([FirstLine(m)] + Fields(m))
  {
    hide HeaderLineNamed, Index, Text;
    forall j | 1 <= j < |[FirstLine(m)] + Fields(m)| ensures ([FirstLine(m)] + Fields(m))[j] != [] {
      var line := Fields(m)[j - 1];
      assert line in m.above + m.below || line in FramingLines(m.framing);
    }
  }

  /** Every printed request is well-formed, whatever the desired order. */
  lemma PrintedIsWellFormed(order: Order, m: Message)
    requires MessageOk(m)
    ensures WellFormed(order, Printed(m))
  {
    hide Text, Index, FramingOk, ContentLength, UsesChunked, CP.Encode, ChunkGrammar.BodyLength, Fields;
    var lines := [FirstLine(m)] + Fields(m);
    var r := Printed(m);
    assert lines[1..] == Fields(m);
    TextIsHead(lines);
    FieldsNotEmpty(m);
    HeadEndsAtFirstTerminator(lines);
    match m.framing
    case NoBody => NothingIsRead(m);
    case ByLength(_, _, _, _, _) => LengthIsRead(m);
    case ByChunks(_, _, _, _, _, body) =>
      ChunkedIsRead(m);
      ChunksAreRead(m);
  }

  lemma ChunksAreRead(m: Message)
    requires MessageOk(m) && m.framing.ByChunks?
    ensures ChunkGrammar.BodyLength(CP.Encode(m.framing.body)) == Some(|CP.Encode(m.framing.body)|)
  {
    hide CP.Encode, ChunkGrammar.BodyLength;
    var b := CP.Encode(m.framing.body);
    CP.PrintedIsRead(m.framing.body, []);
    assert b + [] == b;
  }

  function AllPrinted(messages: seq<Message>): seq<Request> {
    seq(|messages|, i requires 0 <= i < |messages| => Printed(messages[i]))
  }

  // ----- what the server sees -----

  /** A message as the server should see it: its fields in the stable sort by the order desired for its method and target
      (HeaderFacts.OrderIsStableSort), everything else as it was. */
  function Rewritten(order: Order, m: Message): bytes {
    Text([FirstLine(m)] + OrderedLines(Fields(m), order(m.verb, m.target))) + TERMINATOR + BodyOf(m.framing)
  }

  function AllRewritten(order: Order, messages: seq<Message>): bytes {
    if messages == [] then [] else Rewritten(order, messages[0]) + AllRewritten(order, messages[1..])
  }

  lemma HeadIsRewritten(order: Order, m: Message)
    requires MessageOk(m)
    ensures EndsWith(Printed(m).head, TERMINATOR)
    ensures OrderedHead(Printed(m).head, order).ordered + Printed(m).body == Rewritten(order, m)
  {
    hide FramingOk, Fields, OrderedHead, OrderedLines, Text, RequestLine;
    var sorted := AsksForItsOrder(order, m.verb, m.target, m.version, Fields(m));
  }

  lemma AllWell(order: Order, messages: seq<Message>)
    requires forall m :: m in messages ==> MessageOk(m)
    ensures AllWellFormed(order, AllPrinted(messages))
  {
    hide MessageOk, Printed, WellFormed;
    forall i | 0 <= i < |messages| ensures WellFormed(order, AllPrinted(messages)[i]) {
      PrintedIsWellFormed(order, messages[i]);
    }
  }

  lemma {:induction false} WireIsRewritten(order: Order, messages: seq<Message>)
    requires (forall m :: m in messages ==> MessageOk(m)) && AllWellFormed(order, AllPrinted(messages))
    ensures WireOf(order, AllPrinted(messages)) == AllRewritten(order, messages)
  {
    hide MessageOk, Printed, WellFormed, OrderedHead, Rewritten;
    if messages != [] {
      HeadIsRewritten(order, messages[0]);
      AllWell(order, messages[1..]);
      assert AllPrinted(messages)[1..] == AllPrinted(messages[1..]);
      WireIsRewritten(order, messages[1..]);
    }
  }

  /** So every stream of printed requests, in every cut and on every connection, reaches the server rewritten: each with
      its fields in the order desired for its own method and target. */
  method SendMessages(c: OrderedRequestConn, ghost messages: seq<Message>, pieces: seq<bytes>)
    returns (err: WriteError, ghost sent: bytes)
    requires c.Valid() && c.State() == IDLE && forall m :: m in messages ==> MessageOk(m)
    requires Joined(pieces) == StreamOf(AllPrinted(messages))
    modifies c, c.conn, c.chunked
    ensures AllWellFormed(c.order, AllPrinted(messages))
    ensures WireOf(c.order, AllPrinted(messages)) == AllRewritten(c.order, messages)
    ensures c.Valid() && c.conn.wire == old(c.conn.wire) + sent
    ensures err == NoError ==> c.State() == IDLE && sent == AllRewritten(c.order, messages)
    ensures err != NoError ==> err == ConnFailed && sent <= AllRewritten(c.order, messages)
    ensures NonFailing(old(c.conn.script)) ==> err == NoError
  {
    hide MessageOk, Printed, WellFormed;
    AllWell(c.order, messages);
    WireIsRewritten(c.order, messages);
    err, sent := SendRequests(c, AllPrinted(messages), pieces);
  }
}
