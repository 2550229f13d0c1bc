/** The chunked-body tracker of the wire rewriter: a four-state byte machine that finds
    where a chunked request body (RFC 9112, section 7.1) ends without changing it. */
module ChunkTracker {
  import opened Bytes
  import opened Numbers

  /** maxBufferedRequestHeader */
  const MAX_BUFFERED: nat := 0x10_0000

  datatype Phase = ReadingSize | ReadingData | ReadingDataCRLF | ReadingTrailers

  datatype ChunkError = NoError | SizeLineTooLong | InvalidSize | MissingCRLF | TrailersTooLong

  datatype Tracker = Tracker(phase: Phase, line: bytes, dataRemaining: nat, crlfPosition: nat, trailers: bytes)
  {
    /** What every tracker built by the constructor and stepped by Consume satisfies. */
    predicate Valid() {
      && (phase == ReadingData ==> dataRemaining > 0)
      && (phase == ReadingDataCRLF ==> crlfPosition < 2)
    }
  }

  const FRESH: Tracker := Tracker(ReadingSize, [], 0, 0, [])

  /** What one byte does to the tracker. */
  datatype Step =
    | More(t: Tracker)
    | Done(t: Tracker)
    | Bad(t: Tracker, eaten: bool, error: ChunkError)

  /** How far a run over some data got, and how it ended. */
  datatype Run = Run(consumed: nat, end: Step)

  /** The size announced by a chunk-size line (without its CRLF); extensions after ';' are ignored. */
  function ChunkSize(line: bytes): (size: Option<nat>) {
    var text := TrimSpace(line);
    var semicolon := IndexByte(text, 59);
    var sizeText := if semicolon >= 0 then TrimSpace(text[..semicolon]) else text;
    var parsed := ParseInt(sizeText, Sixteen);
    if parsed.None? || parsed.value < 0 then None else Some(parsed.value)
  }

  predicate TrailersComplete(trailers: bytes) {
    trailers == CRLF || EndsWith(trailers, TERMINATOR)
  }

  /** One byte of a chunked body. */
  function StepByte(t: Tracker, b: byte): (s: Step)
    requires t.Valid()
    ensures s.More? ==> s.t.Valid()
    ensures s.Bad? ==> s.error != NoError
  {
    match t.phase
    case ReadingSize =>
      var line := t.line + [b];
      var grown := t.(line := line);
      if |line| > MAX_BUFFERED then Bad(grown, true, SizeLineTooLong)
      else if !EndsWith(line, CRLF) then More(grown)
      else (
        var size := ChunkSize(line[..|line| - 2]);
        if size.None? then Bad(grown, true, InvalidSize)
        else if size.value == 0 then More(t.(line := [], phase := ReadingTrailers))
        else More(t.(line := [], dataRemaining := size.value, phase := ReadingData)))
    case ReadingData =>
      if t.dataRemaining == 1 then More(t.(dataRemaining := 0, crlfPosition := 0, phase := ReadingDataCRLF))
      else More(t.(dataRemaining := t.dataRemaining - 1))
    case ReadingDataCRLF =>
      if b != CRLF[t.crlfPosition] then Bad(t, false, MissingCRLF)
      else if t.crlfPosition == 1 then More(t.(crlfPosition := 2, phase := ReadingSize))
      else More(t.(crlfPosition := t.crlfPosition + 1))
    case ReadingTrailers =>
      var grown := t.(trailers := t.trailers + [b]);
      if |grown.trailers| > MAX_BUFFERED then Bad(grown, true, TrailersTooLong)
      else if TrailersComplete(grown.trailers) then Done(grown)
      else More(grown)
  }

  /** The tracker fed a whole piece of data, one byte at a time, up to completion or an error. */
  function Feed(t: Tracker, data: bytes): (r: Run)
    requires t.Valid()
    ensures r.consumed <= |data|
    ensures r.end.More? ==> r.consumed == |data| && r.end.t.Valid()
    ensures r.end.Done? ==> r.consumed > 0
    ensures r.end.Bad? ==> r.end.error != NoError
    decreases |data|
  {
    if data == [] then Run(0, More(t))
    else
      var s := StepByte(t, data[0]);
      match s
      case More(next) =>
        Shift(1, Feed(next, data[1..]))
      case Done(_) => Run(1, s)
      case Bad(_, eaten, _) => Run(if eaten then 1 else 0, s)
  }

  function Shift(n: nat, r: Run): Run {
    Run(r.consumed + n, r.end)
  }

  /** Feeding composes over any cut of the data. */
  lemma {:induction false} FeedConcat(t: Tracker, a: bytes, b: bytes)
    requires t.Valid()
    ensures var r := Feed(t, a);
            Feed(t, a + b) == if r.end.More? then Shift(|a|, Feed(r.end.t, b)) else r
    decreases |a|
  {
    if a == [] {
      assert a + b == b;
    } else {
      assert (a + b)[0] == a[0] && (a + b)[1..] == a[1..] + b;
      if StepByte(t, a[0]).More? {
        FeedConcat(StepByte(t, a[0]).t, a[1..], b);
      }
    }
  }

  /** Replaying any prefix of what a clean preview consumed never fails, and completes
      exactly when the whole of a completing preview is replayed. */
  lemma {:induction false} ReplayPrefix(t: Tracker, data: bytes, n: nat)
    requires t.Valid() && !Feed(t, data).end.Bad? && n <= Feed(t, data).consumed
    ensures Feed(t, data[..n]).consumed == n
    ensures !Feed(t, data[..n]).end.Bad?
    ensures Feed(t, data[..n]).end.Done? <==> Feed(t, data).end.Done? && n == Feed(t, data).consumed
  {
    assert data == data[..n] + data[n..];
    FeedConcat(t, data[..n], data[n..]);
  }

  /** A run that ends cleanly on some data has consumed some of it. */
  lemma ProgressIsPositive(t: Tracker, data: bytes)
    requires t.Valid() && data != []
    ensures !Feed(t, data).end.Bad? ==> Feed(t, data).consumed > 0
  {
    hide StepByte;
  }

  /** A tracker inside chunk data after n more bytes of it. */
  function AfterData(t: Tracker, n: nat): (after: Tracker)
    requires t.Valid() && t.phase == ReadingData && n <= t.dataRemaining
    ensures after.Valid()
  {
    if n == t.dataRemaining then t.(dataRemaining := 0, crlfPosition := 0, phase := ReadingDataCRLF)
    else t.(dataRemaining := t.dataRemaining - n)
  }

  /** Body bytes inside a chunk only count down. */
  lemma {:induction false} FeedData(t: Tracker, data: bytes, n: nat)
    requires t.Valid() && t.phase == ReadingData && 0 < n <= |data| && n <= t.dataRemaining
    ensures Feed(t, data) == Shift(n, Feed(AfterData(t, n), data[n..]))
    decreases n
  {
    if n > 1 {
      FeedData(StepByte(t, data[0]).t, data[1..], n - 1);
      assert data[1..][n - 1..] == data[n..];
    }
  }

  class ChunkedRequestTracker {
    var phase: Phase
    var line: bytes
    var dataRemaining: nat
    var crlfPosition: nat
    var trailers: bytes

    ghost function State(): Tracker
      reads this
    {
      Tracker(phase, line, dataRemaining, crlfPosition, trailers)
    }

    constructor ()
      ensures State() == FRESH
    {
      phase, line, dataRemaining, crlfPosition, trailers := ReadingSize, [], 0, 0, [];
    }

    method Clone() returns (cloned: ChunkedRequestTracker)
      ensures fresh(cloned) && cloned.State() == State()
    {
      cloned := new ChunkedRequestTracker();
      cloned.phase, cloned.line, cloned.dataRemaining := phase, line, dataRemaining;
      cloned.crlfPosition, cloned.trailers := crlfPosition, trailers;
    }

    /** One byte of a size line. */
    method TakeSizeByte(b: byte) returns (err: ChunkError)
      requires State().Valid() && phase == ReadingSize
      modifies this
      ensures var s := StepByte(old(State()), b);
              !s.Done? && State() == s.t && err == (if s.Bad? then s.error else NoError) && (s.Bad? ==> s.eaten)
    {
      hide ChunkSize;
      line := line + [b];
      if |line| > MAX_BUFFERED {
        return SizeLineTooLong;
      }
      if |line| < 2 || line[|line| - 2..] != CRLF {
        return NoError;
      }
      var size := ChunkSize(line[..|line| - 2]);
      if size.None? {
        return InvalidSize;
      }
      line := [];
      if size.value == 0 {
        phase := ReadingTrailers;
      } else {
        dataRemaining, phase := size.value, ReadingData;
      }
      err := NoError;
    }

    /** One of the two bytes behind chunk data. */
    method TakeCRLFByte(b: byte) returns (err: ChunkError)
      requires State().Valid() && phase == ReadingDataCRLF
      modifies this
      ensures var s := StepByte(old(State()), b);
              !s.Done? && State() == s.t && err == (if s.Bad? then s.error else NoError) && (s.Bad? ==> !s.eaten)
    {
      if b != CRLF[crlfPosition] {
        return MissingCRLF;
      }
      crlfPosition := crlfPosition + 1;
      if crlfPosition == 2 {
        phase := ReadingSize;
      }
      err := NoError;
    }

    /** One byte of the trailer section. */
    method TakeTrailerByte(b: byte) returns (completed: bool, err: ChunkError)
      requires State().Valid() && phase == ReadingTrailers
      modifies this
      ensures var s := StepByte(old(State()), b);
              State() == s.t && completed == s.Done? && err == (if s.Bad? then s.error else NoError) && (s.Bad? ==> s.eaten)
    {
      trailers := trailers + [b];
      if |trailers| > MAX_BUFFERED {
        return false, TrailersTooLong;
      }
      completed := trailers == CRLF || (|trailers| >= 4 && trailers[|trailers| - 4..] == TERMINATOR);
      err := NoError;
    }

    /** As much chunk data as there is. */
    method TakeData(available: nat) returns (chunkBytes: nat)
      requires State().Valid() && phase == ReadingData && available > 0
      modifies this
      ensures 0 < chunkBytes <= available && chunkBytes <= old(dataRemaining)
      ensures State() == AfterData(old(State()), chunkBytes)
    {
      chunkBytes := if available < dataRemaining then available else dataRemaining;
      dataRemaining := dataRemaining - chunkBytes;
      if dataRemaining == 0 {
        crlfPosition, phase := 0, ReadingDataCRLF;
      }
    }

    /** Consume takes chunk data in bulk, yet does exactly what the byte machine does. */
    method Consume(data: bytes) returns (consumed: nat, completed: bool, err: ChunkError)
      requires State().Valid()
      modifies this
      ensures var r := Feed(old(State()), data);
              && consumed == r.consumed
              && completed == r.end.Done?
              && err == (if r.end.Bad? then r.end.error else NoError)
              && State() == r.end.t
    {
      hide StepByte, Feed, AfterData;
      consumed, completed, err := 0, false, NoError;
      ghost var start := State();
      FromTheStart(start, data);
      while consumed < |data|
        invariant consumed <= |data| && State().Valid() && !completed && err == NoError
        invariant Resumes(start, data, consumed, State())
      {
        ghost var cur := State();
        if phase == ReadingData {
          var chunkBytes := TakeData(|data| - consumed);
          FeedDataFrom(start, data, consumed, cur, chunkBytes);
          consumed := consumed + chunkBytes;
          continue;
        }
        FeedFrom(start, data, consumed, cur);
        match phase {
          case ReadingSize =>
            err := TakeSizeByte(data[consumed]);
          case ReadingDataCRLF =>
            err := TakeCRLFByte(data[consumed]);
            if err != NoError {
              return;
            }
          case ReadingTrailers =>
            completed, err := TakeTrailerByte(data[consumed]);
        }
        consumed := consumed + 1;
        if completed || err != NoError {
          return;
        }
      }
      AtTheEnd(start, data, State());
    }
  }

  lemma FromTheStart(start: Tracker, data: bytes)
    requires start.Valid()
    ensures Resumes(start, data, 0, start)
  {
    assert data[0..] == data;
  }

  lemma AtTheEnd(start: Tracker, data: bytes, cur: Tracker)
    requires start.Valid() && cur.Valid() && Resumes(start, data, |data|, cur)
    ensures Feed(start, data) == Run(|data|, More(cur))
  {
    assert data[|data|..] == [];
  }

  /** The tracker in state cur after `done` bytes is on the run that began in state start. */
  ghost predicate Resumes(start: Tracker, data: bytes, done: nat, cur: Tracker)
    requires start.Valid() && cur.Valid() && done <= |data|
  {
    Feed(start, data) == Shift(done, Feed(cur, data[done..]))
  }

  lemma FeedFrom(start: Tracker, data: bytes, done: nat, cur: Tracker)
    requires start.Valid() && cur.Valid() && done < |data| && Resumes(start, data, done, cur)
    ensures var step := StepByte(cur, data[done]);
            match step
            case More(next) => next.Valid() && Resumes(start, data, done + 1, next)
            case Done(_) => Feed(start, data) == Run(done + 1, step)
            case Bad(_, eaten, _) => Feed(start, data) == Run(if eaten then done + 1 else done, step)
  {
    assert data[done..][1..] == data[done + 1..];
  }

  lemma FeedDataFrom(start: Tracker, data: bytes, done: nat, cur: Tracker, n: nat)
    requires start.Valid() && cur.Valid() && done < |data| && Resumes(start, data, done, cur)
    requires cur.phase == ReadingData && 0 < n <= cur.dataRemaining && done + n <= |data|
    ensures Resumes(start, data, done + n, AfterData(cur, n))
  {
    FeedData(cur, data[done..], n);
    assert data[done..][n..] == data[done + n..];
  }
}
