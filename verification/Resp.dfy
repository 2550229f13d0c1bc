/** RESP arrays and bulk strings: what the encoders print and what the readers accept, as functions of the bytes. */
module Resp {
  import opened Bytes
  import opened Numbers

  const DOLLAR: byte := 36
  const STAR: byte := 42
  const PLUS: byte := 43
  const MINUS: byte := 45
  const COLON: byte := 58

  /** io.EOF, io.ErrUnexpectedEOF, the protocol errors, an error reply, a nil reply, and Go's run-time panic for a
      slice length that overflows int. */
  datatype Failure = Eof | UnexpectedEof | Protocol | ErrorReply(message: bytes) | NilReply | Panic

  /** A value and what is left unread, or a failure. */
  datatype Read<+T> = Got(value: T, rest: bytes) | Failed(error: Failure)

  // ----- printing -----

  function Bulk(payload: bytes): bytes {
    [DOLLAR] + Itoa(|payload|) + CRLF + payload + CRLF
  }

  const NIL_BULK: bytes := [36, 45, 49, 13, 10]   // $-1

  /** A nil payload is not an empty one. */
  function BulkOrNil(payload: Option<bytes>): bytes {
    if payload.Some? then Bulk(payload.value) else NIL_BULK
  }

  function Bulks(items: seq<Option<bytes>>): bytes {
    if items == [] then [] else BulkOrNil(items[0]) + Bulks(items[1..])
  }

  function ArrayOf(items: seq<Option<bytes>>): bytes {
    [STAR] + Itoa(|items|) + CRLF + Bulks(items)
  }

  function NonNil(args: seq<bytes>): seq<Option<bytes>> {
    seq(|args|, i requires 0 <= i < |args| => Some(args[i]))
  }

  /** encodeRESPArray's text for a command. */
  function Command(args: seq<bytes>): bytes {
    ArrayOf(NonNil(args))
  }

  // ----- reading -----

  /** reader.ReadString('\\n') */
  function LineAndRest(s: bytes): Read<bytes> {
    var i := IndexByte(s, LF);
    if i < 0 then Failed(Eof) else Got(s[..i + 1], s[i + 1..])
  }

  function Strip(s: bytes, suffix: byte): bytes {
    if s != [] && s[|s| - 1] == suffix then s[..|s| - 1] else s
  }

  /** readRESPLine: up to and without the line feed, and without one carriage return before it. */
  function Line(s: bytes): Read<bytes> {
    var line := LineAndRest(s);
    if line.Failed? then line else Got(Strip(Strip(line.value, LF), CR), line.rest)
  }

  /** io.ReadFull of n bytes */
  function Exactly(s: bytes, n: nat): Read<bytes> {
    if |s| >= n then Got(s[..n], s[n..]) else Failed(if s == [] then Eof else UnexpectedEof)
  }

  /** The payload of a bulk string and the two bytes behind it. */
  function Payload(s: bytes, size: nat, strict: bool): Read<bytes> {
    if size + 2 > MAX_INT64 then Failed(Panic)
    else
      var full := Exactly(s, size + 2);
      if full.Failed? then full
      else if strict && full.value[size..] != CRLF then Failed(Protocol)
      else Got(full.value[..size], full.rest)
  }

  /** readRESPBulkString, behind the dollar sign.  A negative length reads as the empty string. */
  function BulkBody(s: bytes): Read<bytes> {
    var line := Line(s);
    if line.Failed? then line
    else
      var length := Atoi(line.value);
      if length.None? then Failed(Protocol)
      else if length.value < 0 then Got([], line.rest)
      else Payload(line.rest, length.value, true)
  }

  /** readRESPString */
  function String(s: bytes): Read<bytes> {
    if s == [] then Failed(Eof)
    else if s[0] == DOLLAR then BulkBody(s[1..])
    else if s[0] == PLUS || s[0] == COLON then Line(s[1..])
    else Failed(Protocol)
  }

  function Strings(s: bytes, count: nat): Read<seq<bytes>> {
    if count == 0 then Got([], s)
    else
      var front := Strings(s, count - 1);
      if front.Failed? then front
      else
        var last := String(front.rest);
        if last.Failed? then Failed(last.error) else Got(front.value + [last.value], last.rest)
  }

  /** readRESPArray */
  function Array(s: bytes): Read<seq<bytes>> {
    if s == [] then Failed(Eof)
    else if s[0] != STAR then Failed(Protocol)
    else
      var line := Line(s[1..]);
      if line.Failed? then Failed(line.error)
      else
        var count := Atoi(line.value);
        if count.None? || count.value < 0 then Failed(Protocol) else Strings(line.rest, count.value)
  }

  /** readRESPBulk of the certificate client: trims the length line and does not look at the closing bytes. */
  function Reply(s: bytes): Read<bytes> {
    if s == [] then Failed(Eof)
    else if s[0] == DOLLAR then
      var line := LineAndRest(s[1..]);
      if line.Failed? then line
      else
        var size := Atoi(TrimSpace(line.value));
        if size.None? then Failed(Protocol)
        else if size.value < 0 then Failed(NilReply)
        else Payload(line.rest, size.value, false)
    else if s[0] == MINUS then
      var line := LineAndRest(s[1..]);
      if line.Failed? then line else Failed(ErrorReply(TrimSpace(line.value)))
    else Failed(Protocol)
  }

  // ----- lines -----

  lemma LineOf(text: bytes, rest: bytes)
    requires LF !in text
    ensures Line(text + CRLF + rest) == Got(text, rest) && LineAndRest(text + CRLF + rest) == Got(text + CRLF, rest)
  {
    var s := text + CRLF + rest;
    IndexByteIsFirst(s, LF);
    assert s[|text| + 1] == LF;
    var i := IndexByte(s, LF);
    forall j | 0 <= j < |text| ensures s[j] != LF {
      assert s[j] == text[j];
    }
    assert s[|text|] == CR;
    assert i == |text| + 1;
    assert s[..i + 1] == text + CRLF && s[i + 1..] == rest;
    assert (text + CRLF)[..|text| + 1] == text + [CR];
    assert (text + [CR])[..|text|] == text;
  }

  lemma LineExtends(s: bytes, more: bytes)
    requires LineAndRest(s).Got?
    ensures LineAndRest(s + more) == Got(LineAndRest(s).value, LineAndRest(s).rest + more)
  {
    var i := IndexByte(s, LF);
    IndexByteIsFirst(s, LF);
    IndexByteIsFirst(s + more, LF);
    assert (s + more)[i] == LF;
    var j := IndexByte(s + more, LF);
    assert s[j] == (s + more)[j];
    assert (s + more)[..i + 1] == s[..i + 1] && (s + more)[i + 1..] == s[i + 1..] + more;
  }

  lemma DigitsAreNoLineFeed(n: nat)
    ensures LF !in Itoa(n)
  {
  }

  // ----- one string -----

  lemma PayloadOf(payload: bytes, rest: bytes, strict: bool)
    requires |payload| + 2 <= MAX_INT64
    ensures Payload(payload + CRLF + rest, |payload|, strict) == Got(payload, rest)
  {
    var s := payload + CRLF + rest;
    assert s[..|payload| + 2] == payload + CRLF && s[|payload| + 2..] == rest;
    assert (payload + CRLF)[..|payload|] == payload && (payload + CRLF)[|payload|..] == CRLF;
  }

  lemma Associate(a: bytes, b: bytes, c: bytes)
    ensures (a + b) + c == a + (b + c)
  {
  }

  lemma BulkShape(payload: bytes, rest: bytes)
    ensures var s := Bulk(payload) + rest;
            s != [] && s[0] == DOLLAR && s[1..] == Itoa(|payload|) + CRLF + (payload + CRLF + rest)
  {
    hide Itoa;
    var head := Itoa(|payload|) + CRLF;
    Associate([DOLLAR], Itoa(|payload|), CRLF);
    Associate([DOLLAR], head, payload);
    Associate([DOLLAR], head + payload, CRLF);
    Associate([DOLLAR], head + payload + CRLF, rest);
    Associate(head, payload, CRLF);
    Associate(head, payload + CRLF, rest);
    assert Bulk(payload) + rest == [DOLLAR] + (head + (payload + CRLF + rest));
  }

  /** A bulk string decodes to its payload, whatever bytes that holds, and leaves what follows untouched. */
  lemma BulkRoundTrip(payload: bytes, rest: bytes)
    requires |payload| + 2 <= MAX_INT64
    ensures String(Bulk(payload) + rest) == Got(payload, rest)
  {
    hide Line, Payload, Bulk, Atoi;
    BulkShape(payload, rest);
    DigitsAreNoLineFeed(|payload|);
    LineOf(Itoa(|payload|), payload + CRLF + rest);
    AtoiItoa(|payload|);
    PayloadOf(payload, rest, true);
  }

  /** A nil bulk string reads as an empty one. */
  lemma NilReadsEmpty(rest: bytes)
    ensures String(NIL_BULK + rest) == Got([], rest)
  {
    var text: bytes := [45, 49];
    assert (NIL_BULK + rest)[1..] == text + CRLF + rest;
    LineOf(text, rest);
    var digits: bytes := [49];
    assert text[1..] == digits && digits[..0] == [];
    assert DigitsValue(digits, Ten) == 1;
    assert Atoi(text) == Some(-1);
  }

  function OrEmpty(payload: Option<bytes>): bytes {
    if payload.Some? then payload.value else []
  }

  ghost predicate Sized(items: seq<Option<bytes>>) {
    |items| <= MAX_INT64 && forall i :: 0 <= i < |items| && items[i].Some? ==> |items[i].value| + 2 <= MAX_INT64
  }

  function Values(items: seq<Option<bytes>>): seq<bytes> {
    seq(|items|, i requires 0 <= i < |items| => OrEmpty(items[i]))
  }

  // ----- arrays -----

  lemma {:induction false} BulksSnoc(items: seq<Option<bytes>>, item: Option<bytes>)
    ensures Bulks(items + [item]) == Bulks(items) + BulkOrNil(item)
  {
    hide BulkOrNil;
    if items == [] {
      assert [item][1..] == [];
      assert Bulks([]) == [];
      assert BulkOrNil(item) + [] == BulkOrNil(item) == [] + BulkOrNil(item);
    } else {
      assert (items + [item])[1..] == items[1..] + [item];
      BulksSnoc(items[1..], item);
      assert BulkOrNil(items[0]) + (Bulks(items[1..]) + BulkOrNil(item)) == (BulkOrNil(items[0]) + Bulks(items[1..])) + BulkOrNil(item);
    }
  }

  lemma {:induction false} StringsOf(items: seq<Option<bytes>>, rest: bytes)
    requires Sized(items)
    ensures Strings(Bulks(items) + rest, |items|) == Got(Values(items), rest)
    decreases |items|
  {
    hide String, BulkOrNil, Bulks;
    if items == [] {
      NoBulks();
      assert [] + rest == rest;
    } else {
      var n := |items| - 1;
      var front, last := items[..n], items[n];
      assert items == front + [last];
      BulksSnoc(front, last);
      assert Bulks(items) + rest == Bulks(front) + (BulkOrNil(last) + rest);
      StringsOf(front, BulkOrNil(last) + rest);
      OneRoundTrip(last, rest);
      assert Values(items) == Values(front) + [OrEmpty(last)];
    }
  }

  lemma NoBulks()
    ensures Bulks([]) == []
  {
  }

  lemma OneRoundTrip(item: Option<bytes>, rest: bytes)
    requires item.Some? ==> |item.value| + 2 <= MAX_INT64
    ensures String(BulkOrNil(item) + rest) == Got(OrEmpty(item), rest)
  {
    hide String, Bulk;
    if item.Some? {
      BulkRoundTrip(item.value, rest);
    } else {
      NilReadsEmpty(rest);
    }
  }

  /** An array decodes to its items, nil ones to empty strings, and leaves what follows untouched. */
  lemma ArrayRoundTrip(items: seq<Option<bytes>>, rest: bytes)
    requires Sized(items)
    ensures Array(ArrayOf(items) + rest) == Got(Values(items), rest)
  {
    hide Line, Strings, Atoi, Bulks;
    var s := ArrayOf(items) + rest;
    assert s[0] == STAR && s[1..] == Itoa(|items|) + CRLF + (Bulks(items) + rest);
    DigitsAreNoLineFeed(|items|);
    LineOf(Itoa(|items|), Bulks(items) + rest);
    AtoiItoa(|items|);
    StringsOf(items, rest);
  }

  ghost predicate Encodable(args: seq<bytes>) {
    |args| <= MAX_INT64 && forall i :: 0 <= i < |args| ==> |args[i]| + 2 <= MAX_INT64
  }

  /** Decoding an encoded command returns the same argument list. */
  lemma CommandRoundTrip(args: seq<bytes>, rest: bytes)
    requires Encodable(args)
    ensures Array(Command(args) + rest) == Got(args, rest)
  {
    hide Array, ArrayOf;
    ArrayRoundTrip(NonNil(args), rest);
    assert Values(NonNil(args)) == args;
  }

  // ----- streams of commands -----

  function Commands(commands: seq<seq<bytes>>): bytes {
    if commands == [] then [] else Command(commands[0]) + Commands(commands[1..])
  }

  function ReadCommands(s: bytes, count: nat): Read<seq<seq<bytes>>>
    decreases count
  {
    if count == 0 then Got([], s)
    else
      var first := Array(s);
      if first.Failed? then Failed(first.error)
      else
        var others := ReadCommands(first.rest, count - 1);
        if others.Failed? then others else Got([first.value] + others.value, others.rest)
  }

  /** Any concatenation of frames decodes to the same sequence of commands. */
  lemma {:induction false} StreamRoundTrip(commands: seq<seq<bytes>>, rest: bytes)
    requires forall i :: 0 <= i < |commands| ==> Encodable(commands[i])
    ensures ReadCommands(Commands(commands) + rest, |commands|) == Got(commands, rest)
    decreases |commands|
  {
    hide Array, Command, Encodable;
    if commands == [] {
      assert Commands(commands) + rest == rest;
    } else {
      var others := Commands(commands[1..]) + rest;
      assert Commands(commands) + rest == Command(commands[0]) + others;
      CommandRoundTrip(commands[0], others);
      StreamRoundTrip(commands[1..], rest);
      assert [commands[0]] + commands[1..] == commands;
    }
  }

  // ----- more input never changes what was read -----

  lemma ExactlyExtends(s: bytes, n: nat, more: bytes)
    requires Exactly(s, n).Got?
    ensures Exactly(s + more, n) == Got(Exactly(s, n).value, Exactly(s, n).rest + more)
  {
    assert (s + more)[..n] == s[..n] && (s + more)[n..] == s[n..] + more;
  }

  lemma StringExtends(s: bytes, more: bytes)
    requires String(s).Got?
    ensures String(s + more) == Got(String(s).value, String(s).rest + more)
  {
    hide LineAndRest, Exactly, Atoi, Strip;
    assert (s + more)[0] == s[0] && (s + more)[1..] == s[1..] + more;
    LineExtends(s[1..], more);
    if s[0] == DOLLAR {
      var line := Line(s[1..]);
      var length := Atoi(line.value);
      if length.Some? && length.value >= 0 {
        ExactlyExtends(line.rest, length.value + 2, more);
      }
    }
  }

  lemma {:induction false} StringsExtend(s: bytes, count: nat, more: bytes)
    requires Strings(s, count).Got?
    ensures Strings(s + more, count) == Got(Strings(s, count).value, Strings(s, count).rest + more)
  {
    hide String;
    if count > 0 {
      StringsExtend(s, count - 1, more);
      StringExtends(Strings(s, count - 1).rest, more);
    }
  }

  lemma ArrayExtends(s: bytes, more: bytes)
    requires Array(s).Got?
    ensures Array(s + more) == Got(Array(s).value, Array(s).rest + more)
  {
    hide LineAndRest, Strings, Atoi, Strip;
    assert (s + more)[0] == s[0] && (s + more)[1..] == s[1..] + more;
    LineExtends(s[1..], more);
    var line := Line(s[1..]);
    StringsExtend(line.rest, Atoi(line.value).value, more);
  }

  /** Of all prefixes of a frame the reader accepts only the whole: a frame that is cut short is never taken for a command. */
  lemma OnlyTheWholeIsAccepted(args: seq<bytes>, n: nat)
    requires Encodable(args) && n <= |Command(args)|
    ensures Array(Command(args)[..n]).Got? <==> n == |Command(args)|
  {
    hide Array, Command;
    var whole := Command(args);
    var front, back := whole[..n], whole[n..];
    assert front + back == whole == whole + [];
    CommandRoundTrip(args, []);
    if Array(front).Got? {
      ArrayExtends(front, back);
      assert |Array(front).rest + back| == 0;
    }
  }

  /** Different commands have different encodings. */
  lemma CommandIsInjective(a: seq<bytes>, b: seq<bytes>)
    requires Encodable(a) && Encodable(b) && Command(a) == Command(b)
    ensures a == b
  {
    hide Array, Command, Encodable;
    CommandRoundTrip(a, []);
    CommandRoundTrip(b, []);
  }

  // ----- the two bulk readers agree -----

  /** Whatever bulk string of non-negative length the strict reader accepts, the certificate client reads alike. */
  lemma ReadersAgree(s: bytes)
    requires s != [] && s[0] == DOLLAR && String(s).Got? && Line(s[1..]).Got? && Atoi(Line(s[1..]).value) != None
    requires Atoi(Line(s[1..]).value).value >= 0
    ensures Reply(s) == String(s)
  {
    hide TrimSpace, Atoi, Exactly, LineAndRest;
    LengthLine(s[1..]);
  }

  lemma LengthLine(s: bytes)
    requires Line(s).Got? && Atoi(Line(s).value).Some?
    ensures TrimSpace(LineAndRest(s).value) == Line(s).value
  {
    hide Atoi;
    var line, text := LineAndRest(s).value, Line(s).value;
    AtoiVisible(text);
    IndexByteIsFirst(s, LF);
    var spaces := line[|text|..];
    assert line == text + spaces;
    assert text[0] in text && text[|text| - 1] in text;
    assert forall b :: b in spaces ==> IsSpace(b);
    TrimRightOf(text, spaces);
  }
}
