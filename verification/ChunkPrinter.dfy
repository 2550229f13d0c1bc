/** A printer of chunked bodies as RFC 9112, section 7.1, defines them, with sizes in either case and with leading
    zeros, chunk extensions and trailers; whatever it prints, the reader and the tracker accept and end exactly there. */
module ChunkPrinter {
  import opened Bytes
  import opened Numbers
  import opened HeaderOrder
  import opened HeaderFacts
  import opened ChunkTracker
  import opened ChunkGrammar

  const SEMICOLON: byte := 59

  /** A size in hexadecimal digits, an extension with its leading white space, and the data. */
  datatype Chunk = Chunk(size: bytes, padding: bytes, extension: bytes, data: bytes)

  /** The chunks with data, the last chunk, and the trailer lines. */
  datatype Body = Body(chunks: seq<Chunk>, last: Chunk, trailers: seq<bytes>)

  function SizeLine(c: Chunk): bytes {
    c.size + c.padding + c.extension
  }

  ghost predicate ChunkOk(c: Chunk) {
    && c.size != [] && IsDigits(c.size, Sixteen) && DigitsValue(c.size, Sixteen) == |c.data| <= MAX_INT64
    && (forall b :: b in c.padding ==> b == 32 || b == 9)
    && (if c.extension == [] then c.padding == [] else c.extension[0] == SEMICOLON)
    && Index(SizeLine(c), CRLF) < 0 && |SizeLine(c)| + 2 <= MAX_BUFFERED
  }

  ghost predicate BodyOk(b: Body) {
    && (forall i :: 0 <= i < |b.chunks| ==> ChunkOk(b.chunks[i]) && b.chunks[i].data != [])
    && ChunkOk(b.last) && b.last.data == []
    && TrailersOk(b.trailers)
  }

  ghost predicate TrailersOk(trailers: seq<bytes>) {
    && NoCRLF(trailers) && (forall i :: 0 <= i < |trailers| ==> trailers[i] != [])
    && |Trailers(trailers)| <= MAX_BUFFERED
  }

  function Trailers(trailers: seq<bytes>): bytes {
    if trailers == [] then CRLF else Text(trailers) + TERMINATOR
  }

  function Encode(b: Body): bytes
    decreases |b.chunks|
  {
    if b.chunks == [] then SizeLine(b.last) + CRLF + Trailers(b.trailers)
    else
      var c := b.chunks[0];
      SizeLine(c) + CRLF + (c.data + CRLF + Encode(b.(chunks := b.chunks[1..])))
  }

  lemma HexIsVisible(b: byte)
    requires DigitValue(b) < 16
    ensures !IsSpace(b) && b != SEMICOLON && b != 43 && b != 45
  {
  }

  /** The tracker reads the size a chunk announces, and nothing else, off its line. */
  lemma SizeOfLine(c: Chunk)
    requires ChunkOk(c)
    ensures ChunkSize(SizeLine(c)) == Some(|c.data|)
  {
    hide Index, IsDigits, DigitsValue, IndexByte;
    SizeIsPlain(c);
    if c.extension == [] {
      assert SizeLine(c) == c.size && c.size + [] == c.size;
      TrimLeftNothing(c.size);
      TrimRightOf(c.size, []);
      NoSemicolon(c.size);
    } else {
      ExtensionIsCut(c);
      TrimLeftNothing(c.size + c.padding);
      TrimRightOf(c.size, c.padding);
    }
    assert ParseInt(c.size, Sixteen) == Some(|c.data|);
  }

  lemma SizeIsPlain(c: Chunk)
    requires ChunkOk(c)
    ensures c.size != [] && c.size[0] != 43 && c.size[0] != 45
    ensures forall i :: 0 <= i < |c.size| ==> !IsSpace(c.size[i]) && c.size[i] != SEMICOLON
  {
    hide Index;
    forall i | 0 <= i < |c.size| ensures !IsSpace(c.size[i]) && c.size[i] != SEMICOLON {
      HexIsVisible(c.size[i]);
    }
    HexIsVisible(c.size[0]);
  }

  /** The first semicolon of a trimmed line is where the extension starts. */
  lemma ExtensionIsCut(c: Chunk)
    requires ChunkOk(c) && c.extension != []
    ensures var text, at := TrimSpace(SizeLine(c)), |c.size| + |c.padding|;
            at < |text| && IndexByte(text, SEMICOLON) == at && text[..at] == c.size + c.padding
  {
    hide Index;
    SizeIsPlain(c);
    var line, at := SizeLine(c), |c.size| + |c.padding|;
    assert line[0] == c.size[0] && line[at] == SEMICOLON;
    TrimLeftNothing(line);
    TrimRightKeeps(line, at);
    var text := TrimSpace(line);
    IndexByteIsFirst(text, SEMICOLON);
    forall j | 0 <= j < at ensures text[j] != SEMICOLON {
      assert text[j] == line[j];
      assert j >= |c.size| ==> line[j] in c.padding;
    }
    assert text[at] == line[at];
  }

  lemma NoSemicolon(s: bytes)
    requires forall i :: 0 <= i < |s| ==> s[i] != SEMICOLON
    ensures IndexByte(s, SEMICOLON) < 0
  {
    IndexByteIsFirst(s, SEMICOLON);
  }

  lemma TrailersEnd(trailers: seq<bytes>, rest: bytes)
    requires TrailersOk(trailers)
    ensures TrailerLength(Trailers(trailers) + rest) == Some(|Trailers(trailers)|)
  {
    hide Index, Text, NoCRLF;
    var d := Trailers(trailers) + rest;
    if trailers == [] {
      assert d[..2] == CRLF;
    } else {
      var text := Text(trailers) + TERMINATOR;
      HeadEndsAtFirstTerminator(trailers);
      assert d[..|text|] == text;
      IndexOfPrefix(d, |text|, TERMINATOR);
      StartsWithNoLineEnd(trailers, rest);
    }
  }

  lemma StartsWithNoLineEnd(trailers: seq<bytes>, rest: bytes)
    requires trailers != [] && NoCRLF(trailers) && trailers[0] != []
    ensures var d := Text(trailers) + TERMINATOR + rest; |d| >= 2 && d[..2] != CRLF
  {
    var first := trailers[0];
    var d := Text(trailers) + TERMINATOR + rest;
    IndexIsFirst(first, CRLF);
    FirstBytes(trailers);
    assert d[0] == first[0];
    if |first| >= 2 {
      assert !OccursAt(first, CRLF, 0);
      assert first[0..2] == [first[0], first[1]];
      assert d[1] == first[1];
    } else {
      assert d[1] == CR;
    }
    assert d[..2] == [d[0], d[1]];
  }

  /** A text begins with its first line, and then ends or goes on behind a line end. */
  lemma FirstBytes(lines: seq<bytes>)
    requires lines != []
    ensures var t := Text(lines) + TERMINATOR;
            |t| >= |lines[0]| + 2 && t[..|lines[0]|] == lines[0] && t[|lines[0]|] == CR
  {
  }

  /** The reader finds exactly the printed body at the start of any input. */
  lemma {:induction false} PrintedIsRead(b: Body, rest: bytes)
    requires BodyOk(b)
    ensures BodyLength(Encode(b) + rest) == Some(|Encode(b)|)
    decreases |b.chunks|
  {
    hide Index, ChunkSize, TrailerLength, Trailers, TrailersOk, SizeLine, ChunkOk, Encode, OccursAt;
    if b.chunks == [] {
      EncodeLast(b, rest);
      LineFacts(b.last, Trailers(b.trailers) + rest);
      TrailersEnd(b.trailers, rest);
    } else {
      var c := b.chunks[0];
      var others := b.(chunks := b.chunks[1..]);
      var more := Encode(others) + rest;
      EncodeChunk(b, rest);
      LineFacts(c, c.data + CRLF + more);
      DataFacts(c.data, more);
      PrintedIsRead(others, rest);
    }
  }

  lemma EncodeLast(b: Body, rest: bytes)
    requires b.chunks == []
    ensures Encode(b) + rest == SizeLine(b.last) + CRLF + (Trailers(b.trailers) + rest)
    ensures |Encode(b)| == |SizeLine(b.last)| + 2 + |Trailers(b.trailers)|
  {
    hide SizeLine, Trailers;
  }

  lemma EncodeChunk(b: Body, rest: bytes)
    requires b.chunks != []
    ensures var c, others := b.chunks[0], Encode(b.(chunks := b.chunks[1..]));
            && Encode(b) + rest == SizeLine(c) + CRLF + (c.data + CRLF + (others + rest))
            && |Encode(b)| == |SizeLine(c)| + 2 + |c.data| + 2 + |others|
  {
    hide SizeLine;
    var c, others := b.chunks[0], Encode(b.(chunks := b.chunks[1..]));
    var head, data := SizeLine(c) + CRLF, c.data + CRLF;
    assert Encode(b) == head + (data + others);
    assert (head + (data + others)) + rest == head + (data + (others + rest));
  }

  lemma DataFacts(data: bytes, more: bytes)
    ensures var tail := data + CRLF + more; OccursAt(tail, CRLF, |data|) && tail[|data| + 2..] == more
  {
  }

  lemma LineFacts(c: Chunk, tail: bytes)
    requires ChunkOk(c)
    ensures var d := SizeLine(c) + CRLF + tail;
            && Index(d, CRLF) == |SizeLine(c)| && |SizeLine(c)| + 2 <= MAX_BUFFERED
            && ChunkSize(d[..|SizeLine(c)|]) == Some(|c.data|) && d[|SizeLine(c)| + 2..] == tail
  {
    hide Index, ChunkSize, SizeLine;
    var line := SizeLine(c);
    IndexAfterLine(line, tail);
    assert (line + CRLF + tail)[..|line|] == line;
    SizeOfLine(c);
  }

  /** A new tracker completes on every printed body, on its last byte, whatever follows. */
  lemma TrackerAcceptsPrinted(b: Body, rest: bytes)
    requires BodyOk(b)
    ensures var r := Feed(FRESH, Encode(b) + rest); r.end.Done? && r.consumed == |Encode(b)|
  {
    hide Feed, BodyLength, Encode, BodyOk;
    PrintedIsRead(b, rest);
    TrackerEndsBodyExactly(Encode(b) + rest);
  }

  /** The other way round the code is more liberal than the standard: it also takes a sign before the digits. */
  lemma SignedSizeIsAccepted(line: bytes)
    requires line == [43, 53]
    ensures ChunkSize(line) == Some(5) && !IsDigits(line, Sixteen)
  {
    TrimLeftNothing(line);
    TrimRightOf(line, []);
    assert line + [] == line;
    NoSemicolon(line);
    var digits := line[1..];
    assert digits == [53] && digits[..0] == [];
    assert DigitsValue(digits, Sixteen) == 5;
    assert DigitValue(line[0]) == 255;
  }
}
