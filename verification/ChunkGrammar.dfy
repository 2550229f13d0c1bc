/** A line-oriented reference reader for chunked bodies, and the proof that the byte machine of the tracker ends a body
    exactly where that reader does.  Sizes are read as the code reads them; ChunkPrinter relates this to RFC 9112. */
module ChunkGrammar {
  import opened Bytes
  import opened ChunkTracker

  /** The length of the trailer section at the start of d: an empty one is a bare CRLF. */
  function TrailerLength(d: bytes): (n: Option<nat>)
    ensures n.Some? ==> n.value <= |d|
  {
    if |d| >= 2 && d[..2] == CRLF then Some(2)
    else
      var end := Index(d, TERMINATOR);
      if end < 0 || end + 4 > MAX_BUFFERED then None else Some(end + 4)
  }

  /** The length of the chunked body at the start of d, read line by line; None if there is
      no complete well-formed body (or a line is over the buffer limit). */
  function BodyLength(d: bytes): (n: Option<nat>)
    ensures n.Some? ==> 0 < n.value <= |d|
    decreases |d|
  {
    var lineEnd := Index(d, CRLF);
    if lineEnd < 0 || lineEnd + 2 > MAX_BUFFERED then None
    else
      var size := ChunkSize(d[..lineEnd]);
      var rest := d[lineEnd + 2..];
      if size.None? then None
      else if size.value == 0 then Plus(lineEnd + 2, TrailerLength(rest))
      else if !OccursAt(rest, CRLF, size.value) then None
      else Plus(lineEnd + 2 + size.value + 2, BodyLength(rest[size.value + 2..]))
  }

  function Plus(n: nat, m: Option<nat>): Option<nat> {
    if m.Some? then Some(n + m.value) else None
  }

  /** Where a run of the tracker completed the body, if it did. */
  function Completion(r: Run): Option<nat> {
    if r.end.Done? then Some(r.consumed) else None
  }

  /** The tracker once a whole size line has been read. */
  function AfterSizeLine(t: Tracker, size: nat): (next: Tracker)
    requires t.phase == ReadingSize
    ensures next.Valid()
  {
    if size == 0 then t.(line := [], phase := ReadingTrailers)
    else t.(line := [], dataRemaining := size, phase := ReadingData)
  }

  /** What one more byte does to a buffered size line. */
  lemma SizeLineStep(t: Tracker, line: bytes, b: byte)
    requires t.phase == ReadingSize && t.line == []
    ensures var grown := line + [b];
            StepByte(t.(line := line), b) ==
              if |grown| > MAX_BUFFERED then Bad(t.(line := grown), true, SizeLineTooLong)
              else if !EndsWith(grown, CRLF) then More(t.(line := grown))
              else
                var size := ChunkSize(grown[..|grown| - 2]);
                if size.None? then Bad(t.(line := grown), true, InvalidSize) else More(AfterSizeLine(t, size.value))
  {
    hide ChunkSize, EndsWith;
  }

  lemma NextLineByte(t: Tracker, d: bytes, n: nat)
    requires t.phase == ReadingSize && t.line == []
    requires n < |d| && Resumes(t, d, n, t.(line := d[..n]))
    ensures n + 1 > MAX_BUFFERED ==> Feed(t, d).end.Bad?
    ensures n + 1 <= MAX_BUFFERED && !EndsWith(d[..n + 1], CRLF) ==> Resumes(t, d, n + 1, t.(line := d[..n + 1]))
    ensures n + 1 <= MAX_BUFFERED && EndsWith(d[..n + 1], CRLF) ==>
              var size := ChunkSize(d[..n + 1][..n - 1]);
              if size.None? then Feed(t, d).end.Bad? else Resumes(t, d, n + 1, AfterSizeLine(t, size.value))
  {
    hide StepByte, Feed, ChunkSize, EndsWith;
    PrefixSnoc(d, n);
    SizeLineStep(t, d[..n], d[n]);
    FeedFrom(t, d, n, t.(line := d[..n]));
  }

  /** Below the limit and before its CRLF, a size line is only buffered. */
  lemma {:induction false} ReadLine(t: Tracker, d: bytes, n: nat)
    requires t.phase == ReadingSize && t.line == []
    requires n <= |d| && n <= MAX_BUFFERED && Index(d[..n], CRLF) < 0
    ensures Resumes(t, d, n, t.(line := d[..n]))
  {
    if n > 0 {
      assert d[..n][..n - 1] == d[..n - 1];
      IndexOfPrefix(d[..n], n - 1, CRLF);
      EndsWithIndex(d[..n], CRLF);
      ReadLine(t, d, n - 1);
      NextLineByte(t, d, n - 1);
    }
  }

  lemma StillReading(t: Tracker, d: bytes, cur: Tracker)
    requires t.Valid() && cur.Valid() && Resumes(t, d, |d|, cur)
    ensures Completion(Feed(t, d)) == None
  {
    assert d[|d|..] == [];
  }

  lemma FeedSizeLine(t: Tracker, d: bytes)
    requires t.phase == ReadingSize && t.line == []
    ensures var i := Index(d, CRLF);
            if i < 0 || i + 2 > MAX_BUFFERED || ChunkSize(d[..i]).None? then !Feed(t, d).end.Done?
            else Resumes(t, d, i + 2, AfterSizeLine(t, ChunkSize(d[..i]).value))
  {
    hide StepByte, ChunkSize, AfterSizeLine, Feed, Resumes, EndsWith, Index;
    var i := Index(d, CRLF);
    if 0 <= i && i + 2 <= MAX_BUFFERED {
      IndexOfPrefix(d, i + 1, CRLF);
      IndexOfPrefix(d, i + 2, CRLF);
      EndsWithIndex(d[..i + 2], CRLF);
      assert d[..i + 2][..i] == d[..i];
      ReadLine(t, d, i + 1);
      NextLineByte(t, d, i + 1);
    } else if |d| > MAX_BUFFERED {
      IndexOfPrefix(d, MAX_BUFFERED, CRLF);
      ReadLine(t, d, MAX_BUFFERED);
      NextLineByte(t, d, MAX_BUFFERED);
    } else {
      assert d[..|d|] == d;
      ReadLine(t, d, |d|);
      StillReading(t, d, t.(line := d));
    }
  }

  lemma NextTrailerByte(t: Tracker, d: bytes, n: nat)
    requires t.phase == ReadingTrailers && t.trailers == []
    requires n < |d| && Resumes(t, d, n, t.(trailers := d[..n]))
    ensures n + 1 > MAX_BUFFERED ==> Feed(t, d).end.Bad?
    ensures n + 1 <= MAX_BUFFERED && !TrailersComplete(d[..n + 1]) ==> Resumes(t, d, n + 1, t.(trailers := d[..n + 1]))
    ensures n + 1 <= MAX_BUFFERED && TrailersComplete(d[..n + 1]) ==> Completion(Feed(t, d)) == Some(n + 1)
  {
    hide Feed, TrailersComplete;
    PrefixSnoc(d, n);
    FeedFrom(t, d, n, t.(trailers := d[..n]));
  }

  lemma ResumesAtStart(t: Tracker, d: bytes)
    requires t.Valid()
    ensures Resumes(t, d, 0, t)
  {
  }

  /** Before the end of a trailer section and below the limit, trailers are only buffered. */
  lemma {:induction false} ReadTrailers(t: Tracker, d: bytes, n: nat)
    requires t.phase == ReadingTrailers && t.trailers == []
    requires n <= |d| && n <= MAX_BUFFERED && Index(d[..n], TERMINATOR) < 0
    requires n >= 2 ==> d[..2] != CRLF
    ensures Resumes(t, d, n, t.(trailers := d[..n]))
  {
    hide Feed, StepByte, Index, Resumes;
    ResumesAtStart(t, d);
    assert d[..0] == [];
    if n > 0 {
      assert d[..n][..n - 1] == d[..n - 1];
      IndexOfPrefix(d[..n], n - 1, TERMINATOR);
      EndsWithIndex(d[..n], TERMINATOR);
      ReadTrailers(t, d, n - 1);
      if n == 2 {
        assert d[..n] != CRLF;
      }
      NextTrailerByte(t, d, n - 1);
    }
  }

  lemma FeedTrailers(t: Tracker, d: bytes)
    requires t.phase == ReadingTrailers && t.trailers == []
    ensures Completion(Feed(t, d)) == TrailerLength(d)
  {
    hide StepByte, Feed, Resumes, EndsWith, Index;
    var i := Index(d, TERMINATOR);
    if |d| >= 2 && d[..2] == CRLF {
      ReadTrailers(t, d, 1);
      NextTrailerByte(t, d, 1);
    } else if 0 <= i && i + 4 <= MAX_BUFFERED {
      IndexOfPrefix(d, i + 3, TERMINATOR);
      IndexOfPrefix(d, i + 4, TERMINATOR);
      EndsWithIndex(d[..i + 4], TERMINATOR);
      ReadTrailers(t, d, i + 3);
      NextTrailerByte(t, d, i + 3);
    } else if |d| > MAX_BUFFERED {
      IndexOfPrefix(d, MAX_BUFFERED, TERMINATOR);
      ReadTrailers(t, d, MAX_BUFFERED);
      NextTrailerByte(t, d, MAX_BUFFERED);
    } else {
      assert d[..|d|] == d;
      ReadTrailers(t, d, |d|);
      StillReading(t, d, t.(trailers := d));
    }
  }

  lemma CRLFStep(t: Tracker, b: byte)
    requires t.Valid() && t.phase == ReadingDataCRLF
    ensures StepByte(t, b) ==
              if b != CRLF[t.crlfPosition] then Bad(t, false, MissingCRLF)
              else if t.crlfPosition == 1 then More(t.(crlfPosition := 2, phase := ReadingSize))
              else More(t.(crlfPosition := t.crlfPosition + 1))
  {
    hide ChunkSize;
  }

  lemma TwoBytes(d: bytes, at: nat)
    ensures OccursAt(d, CRLF, at) <==> at + 2 <= |d| && d[at] == CR && d[at + 1] == LF
  {
    if at + 2 <= |d| {
      assert d[at..at + 2] == [d[at], d[at + 1]];
    }
  }

  /** The two bytes that close a chunk's data. */
  lemma FeedDataCRLF(t: Tracker, d: bytes, done: nat, cur: Tracker)
    requires t.Valid() && cur.phase == ReadingDataCRLF && cur.crlfPosition == 0
    requires done <= |d| && Resumes(t, d, done, cur)
    ensures OccursAt(d, CRLF, done) ==> Resumes(t, d, done + 2, cur.(crlfPosition := 2, phase := ReadingSize))
    ensures !OccursAt(d, CRLF, done) ==> Completion(Feed(t, d)) == None
  {
    hide StepByte, Feed, OccursAt, Resumes;
    TwoBytes(d, done);
    if done == |d| {
      AtTheEnd(t, d, cur);
    } else {
      FeedFrom(t, d, done, cur);
      CRLFStep(cur, d[done]);
      if d[done] == CR {
        SecondByte(t, d, done + 1, cur.(crlfPosition := 1));
      }
    }
  }

  lemma SecondByte(t: Tracker, d: bytes, at: nat, half: Tracker)
    requires t.Valid() && half.phase == ReadingDataCRLF && half.crlfPosition == 1
    requires at <= |d| && Resumes(t, d, at, half)
    ensures at < |d| && d[at] == LF ==> Resumes(t, d, at + 1, half.(crlfPosition := 2, phase := ReadingSize))
    ensures at == |d| || d[at] != LF ==> Completion(Feed(t, d)) == None
  {
    hide StepByte, Feed, Resumes;
    if at == |d| {
      AtTheEnd(t, d, half);
    } else {
      FeedFrom(t, d, at, half);
      CRLFStep(half, d[at]);
    }
  }

  /** Tracker states between two chunks. */
  predicate BetweenChunks(t: Tracker) {
    t.phase == ReadingSize && t.line == [] && t.trailers == []
  }

  /** A size line: the body ends where the rest after that line ends it. */
  lemma AfterLine(t: Tracker, d: bytes)
    requires BetweenChunks(t)
    ensures var i := Index(d, CRLF);
            if i < 0 || i + 2 > MAX_BUFFERED || ChunkSize(d[..i]).None? then Completion(Feed(t, d)) == None
            else Completion(Feed(t, d)) ==
                 Plus(i + 2, Completion(Feed(AfterSizeLine(t, ChunkSize(d[..i]).value), d[i + 2..])))
  {
    hide StepByte;
    FeedSizeLine(t, d);
  }

  /** One chunk's data and its closing CRLF. */
  lemma AfterChunk(cur: Tracker, d: bytes) returns (next: Tracker)
    requires cur.Valid() && cur.phase == ReadingData && cur.line == [] && cur.trailers == []
    ensures BetweenChunks(next)
    ensures Completion(Feed(cur, d)) ==
            if OccursAt(d, CRLF, cur.dataRemaining)
            then Plus(cur.dataRemaining + 2, Completion(Feed(next, d[cur.dataRemaining + 2..])))
            else None
  {
    var size := cur.dataRemaining;
    next := AfterData(cur, size).(crlfPosition := 2, phase := ReadingSize);
    if size <= |d| {
      FeedData(cur, d, size);
      FeedDataCRLF(cur, d, size, AfterData(cur, size));
    } else if d != [] {
      FeedData(cur, d, |d|);
    }
  }

  /** The machine and the grammar agree on every input, at every chunk boundary. */
  lemma {:induction false} MachineMatchesGrammar(t: Tracker, d: bytes)
    requires BetweenChunks(t)
    ensures Completion(Feed(t, d)) == BodyLength(d)
    decreases |d|
  {
    hide StepByte, ChunkSize, Feed, Completion, Index, TrailerLength;
    AfterLine(t, d);
    var i := Index(d, CRLF);
    if 0 <= i && i + 2 <= MAX_BUFFERED && ChunkSize(d[..i]).Some? {
      var size := ChunkSize(d[..i]).value;
      var rest := d[i + 2..];
      if size == 0 {
        FeedTrailers(AfterSizeLine(t, 0), rest);
      } else {
        var next := AfterChunk(AfterSizeLine(t, size), rest);
        if OccursAt(rest, CRLF, size) {
          MachineMatchesGrammar(next, rest[size + 2..]);
        }
      }
    }
  }

  /** A new tracker completes on a piece of data iff the data starts with a well-formed chunked
      body, and it then stops on that body's last byte. */
  lemma TrackerEndsBodyExactly(d: bytes)
    ensures Feed(FRESH, d).end.Done? <==> BodyLength(d).Some?
    ensures Feed(FRESH, d).end.Done? ==> Feed(FRESH, d).consumed == BodyLength(d).value
  {
    MachineMatchesGrammar(FRESH, d);
  }
}
