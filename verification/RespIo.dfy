/** The RESP readers and writers over buffered streams. */
module RespIo {
  import opened Bytes
  import opened Numbers
  import opened Resp

  datatype Outcome<+T> = Ok(value: T) | Err(error: Failure)

  /** Whether an outcome and the unread bytes are what a read function says of the bytes unread before. */
  ghost predicate Follows<T>(outcome: Outcome<T>, unread: bytes, spec: Read<T>) {
    match spec
    case Got(value, rest) => outcome == Ok(value) && unread == rest
    case Failed(error) => outcome == Err(error)
  }

  /** The input ends only when all of it was read. */
  ghost predicate Drained<T>(outcome: Outcome<T>, unread: bytes) {
    outcome == Err(Eof) || outcome == Err(UnexpectedEof) ==> unread == []
  }

  class Reader {
    var unread: bytes

    constructor (data: bytes)
      ensures unread == data
    {
      unread := data;
    }

    method ReadByte() returns (b: Option<byte>)
      modifies this
      ensures old(unread) == [] ==> b == None && unread == []
      ensures old(unread) != [] ==> b == Some(old(unread)[0]) && unread == old(unread)[1..]
    {
      if |unread| == 0 {
        return None;
      }
      b := Some(unread[0]);
      unread := unread[1..];
    }

    /** ReadString('\\n'): at the end of the input everything is consumed. */
    method ReadString() returns (line: Outcome<bytes>)
      modifies this
      ensures Follows(line, unread, LineAndRest(old(unread)))
      ensures Drained(line, unread)
    {
      var i := IndexByte(unread, LF);
      if i < 0 {
        unread := [];
        return Err(Eof);
      }
      line := Ok(unread[..i + 1]);
      unread := unread[i + 1..];
    }

    method ReadFull(n: nat) returns (buf: Outcome<bytes>)
      modifies this
      ensures Follows(buf, unread, Exactly(old(unread), n))
      ensures Drained(buf, unread)
    {
      if |unread| >= n {
        buf := Ok(unread[..n]);
        unread := unread[n..];
      } else {
        buf := Err(if |unread| == 0 then Eof else UnexpectedEof);
        unread := [];
      }
    }

    method ReadRESPLine() returns (line: Outcome<bytes>)
      modifies this
      ensures Follows(line, unread, Line(old(unread)))
      ensures Drained(line, unread)
    {
      hide LineAndRest;
      line := ReadString();
      if line.Ok? {
        line := Ok(Strip(Strip(line.value, LF), CR));
      }
    }

    /** readRESPBulkString */
    method ReadRESPBulkString() returns (value: Outcome<bytes>)
      modifies this
      ensures Follows(value, unread, BulkBody(old(unread)))
      ensures Drained(value, unread)
    {
      hide Line, Atoi;
      var line := ReadRESPLine();
      if line.Err? {
        return line;
      }
      var length := Atoi(line.value);
      if length.None? {
        return Err(Protocol);
      }
      if length.value < 0 {
        return Ok([]);
      }
      if length.value + 2 > MAX_INT64 {
        return Err(Panic);
      }
      var buf := ReadFull(length.value + 2);
      if buf.Err? {
        return buf;
      }
      Closing(buf.value, length.value);
      if buf.value[length.value] != CR || buf.value[length.value + 1] != LF {
        return Err(Protocol);
      }
      value := Ok(buf.value[..length.value]);
    }

    /** readRESPString */
    method ReadRESPString() returns (value: Outcome<bytes>)
      modifies this
      ensures Follows(value, unread, String(old(unread)))
      ensures Drained(value, unread)
    {
      hide Line, BulkBody;
      var prefix := ReadByte();
      if prefix.None? {
        return Err(Eof);
      }
      if prefix.value == DOLLAR {
        value := ReadRESPBulkString();
      } else if prefix.value == PLUS || prefix.value == COLON {
        value := ReadRESPLine();
      } else {
        value := Err(Protocol);
      }
    }

    /** readRESPArray */
    method ReadRESPArray() returns (args: Outcome<seq<bytes>>)
      modifies this
      ensures Follows(args, unread, Array(old(unread)))
      ensures Drained(args, unread)
    {
      hide Line, Atoi, String;
      var prefix := ReadByte();
      if prefix.None? {
        return Err(Eof);
      }
      if prefix.value != STAR {
        return Err(Protocol);
      }
      var line := ReadRESPLine();
      if line.Err? {
        return Err(line.error);
      }
      var count := Atoi(line.value);
      if count.None? || count.value < 0 {
        return Err(Protocol);
      }
      ghost var start := unread;
      var values := [];
      for i := 0 to count.value
        invariant Strings(start, i) == Got(values, unread)
      {
        var value := ReadRESPString();
        if value.Err? {
          FailsFrom(start, i + 1, count.value);
          return Err(value.error);
        }
        values := values + [value.value];
      }
      args := Ok(values);
    }

    /** readRESPBulk of the certificate client */
    method ReadRESPBulk() returns (value: Outcome<bytes>)
      modifies this
      ensures Follows(value, unread, Reply(old(unread)))
      ensures Drained(value, unread)
    {
      hide LineAndRest, Atoi, TrimSpace;
      var prefix := ReadByte();
      if prefix.None? {
        return Err(Eof);
      }
      if prefix.value == DOLLAR {
        var line := ReadString();
        if line.Err? {
          return line;
        }
        var size := Atoi(TrimSpace(line.value));
        if size.None? {
          return Err(Protocol);
        }
        if size.value < 0 {
          return Err(NilReply);
        }
        if size.value + 2 > MAX_INT64 {
          return Err(Panic);
        }
        var payload := ReadFull(size.value + 2);
        if payload.Err? {
          return payload;
        }
        return Ok(payload.value[..size.value]);
      }
      if prefix.value == MINUS {
        var line := ReadString();
        if line.Err? {
          return line;
        }
        return Err(ErrorReply(TrimSpace(line.value)));
      }
      value := Err(Protocol);
    }
  }

  lemma Closing(buf: bytes, size: nat)
    requires |buf| == size + 2
    ensures buf[size..] == CRLF <==> buf[size] == CR && buf[size + 1] == LF
  {
    assert buf[size..] == [buf[size], buf[size + 1]];
  }

  /** The first string that fails fails the array. */
  lemma {:induction false} FailsFrom(s: bytes, n: nat, m: nat)
    requires n <= m && Strings(s, n).Failed?
    ensures Strings(s, m) == Strings(s, n)
  {
    hide String;
    if n < m {
      FailsFrom(s, n, m - 1);
    }
  }

  // ----- writing -----

  class Writer {
    var written: bytes

    constructor ()
      ensures written == []
    {
      written := [];
    }

    /** writeRedisBulkString: a nil payload is written as the nil bulk string. */
    method WriteBulkString(payload: Option<bytes>)
      modifies this
      ensures written == old(written) + BulkOrNil(payload)
    {
      hide Itoa;
      if payload.None? {
        written := written + NIL_BULK;
        return;
      }
      ghost var before := written;
      written := written + ([DOLLAR] + Itoa(|payload.value|) + CRLF);
      written := written + payload.value;
      written := written + CRLF;
      Associate(before, [DOLLAR] + Itoa(|payload.value|) + CRLF, payload.value);
      Associate(before, [DOLLAR] + Itoa(|payload.value|) + CRLF + payload.value, CRLF);
    }

    /** writeRedisArrayOfBulkStrings */
    method WriteArrayOfBulkStrings(items: seq<Option<bytes>>)
      modifies this
      ensures written == old(written) + ArrayOf(items)
    {
      hide Itoa, BulkOrNil, Bulks;
      ghost var before := written;
      var head := [STAR] + Itoa(|items|) + CRLF;
      written := written + head;
      NoBulks();
      for i := 0 to |items|
        invariant written == before + (head + Bulks(items[..i]))
      {
        WriteBulkString(items[i]);
        BulksSnoc(items[..i], items[i]);
        assert items[..i + 1] == items[..i] + [items[i]];
        Associate(before, head + Bulks(items[..i]), BulkOrNil(items[i]));
        Associate(head, Bulks(items[..i]), BulkOrNil(items[i]));
      }
      assert items[..|items|] == items;
    }
  }

  /** encodeRESPArray */
  method EncodeRESPArray(args: seq<bytes>) returns (buf: bytes)
    ensures buf == Command(args)
  {
    hide Itoa, Bulks, BulkOrNil;
    var head := [STAR] + Itoa(|args|) + CRLF;
    buf := head;
    NoBulks();
    for i := 0 to |args|
      invariant buf == head + Bulks(NonNil(args)[..i])
    {
      ghost var before, front := buf, NonNil(args)[..i];
      buf := buf + [DOLLAR];
      buf := buf + Itoa(|args[i]|);
      buf := buf + CRLF;
      buf := buf + args[i];
      buf := buf + CRLF;
      BulkAppended(before, args[i]);
      BulksSnoc(front, Some(args[i]));
      assert NonNil(args)[..i + 1] == front + [Some(args[i])];
      Associate(head, Bulks(front), BulkOrNil(Some(args[i])));
    }
    assert NonNil(args)[..|args|] == NonNil(args);
  }

  lemma BulkAppended(before: bytes, arg: bytes)
    ensures before + [DOLLAR] + Itoa(|arg|) + CRLF + arg + CRLF == before + BulkOrNil(Some(arg))
  {
    hide Itoa;
    Associate(before, [DOLLAR], Itoa(|arg|));
    Associate(before, [DOLLAR] + Itoa(|arg|), CRLF);
    Associate(before, [DOLLAR] + Itoa(|arg|) + CRLF, arg);
    Associate(before, [DOLLAR] + Itoa(|arg|) + CRLF + arg, CRLF);
  }
}
