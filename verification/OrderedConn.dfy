/** The connection wrapper itself: Write buffers request heads, rewrites them and passes
    bodies through in bulk, over a connection that may write short or fail at any point. */
module OrderedConn {
  import opened Bytes
  import opened HeaderOrder
  import opened WireMachine
  import Chunk = ChunkTracker

  const MAX_HEADER: nat := Chunk.MAX_BUFFERED

  /** One answer of the underlying connection: how many bytes it takes at most, and whether it reports an error. */
  datatype Reply = Reply(accept: nat, fail: bool)

  /** A script that never fails: every write makes progress, though it may be short. */
  predicate NonFailing(script: seq<Reply>) {
    forall r :: r in script ==> !r.fail && r.accept > 0
  }

  /** The underlying net.Conn.  Its behaviour is fixed by a script of answers; past the script it takes everything. */
  class NetConn {
    var wire: bytes
    var script: seq<Reply>

    constructor (script: seq<Reply>)
      ensures wire == [] && this.script == script
    {
      wire, this.script := [], script;
    }

    method Write(data: bytes) returns (written: nat, failed: bool)
      modifies this
      ensures written <= |data| && wire == old(wire) + data[..written]
      ensures old(script) == [] ==> written == |data| && !failed && script == []
      ensures old(script) != [] ==>
                var r := old(script)[0];
                && written == (if r.accept < |data| then r.accept else |data|)
                && failed == r.fail && script == old(script)[1..]
    {
      if script == [] {
        written, failed := |data|, false;
      } else {
        var r := script[0];
        written, failed := if r.accept < |data| then r.accept else |data|, r.fail;
        script := script[1..];
      }
      wire := wire + data[..written];
    }
  }

  /** writeAll: retries short writes; no progress without an error is io.ErrShortWrite. */
  method WriteAll(writer: NetConn, data: bytes) returns (total: nat, failed: bool)
    modifies writer
    ensures total <= |data| && writer.wire == old(writer.wire) + data[..total]
    ensures !failed ==> total == |data|
    ensures NonFailing(old(writer.script)) ==> !failed && NonFailing(writer.script)
  {
    total, failed := 0, false;
    var rest := data;
    while |rest| > 0
      invariant total <= |data| && rest == data[total..]
      invariant writer.wire == old(writer.wire) + data[..total]
      invariant NonFailing(old(writer.script)) ==> NonFailing(writer.script)
      decreases |rest|
    {
      var before := writer.script;
      var written, errWrite := writer.Write(rest);
      assert data[..total] + rest[..written] == data[..total + written];
      total := total + written;
      if errWrite {
        return total, true;
      }
      if written <= 0 {
        return total, true;
      }
      rest := rest[written..];
    }
    assert data[..total] == data;
  }

  datatype WriteError = NoError | ConnFailed | MalformedChunk | HeaderTooLarge

  /** The connection failed while a rewritten head was going out: the head was complete after k
      caller bytes, everything before it is on the wire, and some part of the head may be. */
  ghost predicate HeadWriteFailed(order: Order, s: WireState, p: bytes, sent: bytes, k: nat)
    requires s.Valid()
  {
    && 0 < k <= |p|
    && var before, after := FeedWire(order, s, p[..k - 1]), FeedWire(order, s, p[..k]);
    && before.Fed? && after.Fed? && before.s.InHeader() && after.s.header == []
    && before.out <= sent <= after.out
  }

  /** What one Write returns and leaves behind, in terms of the reference semantics. */
  ghost predicate WriteOutcome(order: Order, s: WireState, p: bytes, n: nat, err: WriteError, s': WireState, sent: bytes)
    requires s.Valid()
  {
    && n <= |p|
    && match err
       case NoError =>
         n == |p| && FeedWire(order, s, p) == Fed(s', sent) && (p != [] ==> |s'.header| <= MAX_HEADER)
       case MalformedChunk =>
         FeedWire(order, s, p[..n]) == Fed(s', sent) && FeedWire(order, s, p).Malformed?
       case HeaderTooLarge =>
         && p != [] && FeedWire(order, s, p) == Fed(s', sent) && |s'.header| > MAX_HEADER
         && var consumed := FeedWire(order, s, p[..n]);
            consumed.Fed? && consumed.out == sent && s' == consumed.s.(header := consumed.s.header + p[n..])
       case ConnFailed =>
         || FeedWire(order, s, p[..n]) == Fed(s', sent)
         || (n == |p| && s' == IDLE && exists k: nat :: HeadWriteFailed(order, s, p, sent, k))
  }

  /** An outcome for the rest of the input, after a first part was fed, is an outcome for the whole input. */
  lemma LiftOutcome(order: Order, s: WireState, p: bytes, done: nat, cur: WireState, sent: bytes,
                    n: nat, err: WriteError, s': WireState, out: bytes)
    requires s.Valid() && cur.Valid() && done < |p| && FeedWire(order, s, p[..done]) == Fed(cur, sent)
    requires WriteOutcome(order, cur, p[done..], n, err, s', out)
    ensures WriteOutcome(order, s, p, done + n, err, s', sent + out)
  {
    hide FeedWire, FeedByte;
    var rest := p[done..];
    assert p == p[..done] + rest;
    FeedWireConcat(order, s, p[..done], rest);
    FeedPrefix(order, s, p, done, cur, sent, n);
    if err.ConnFailed? && FeedWire(order, cur, rest[..n]) != Fed(s', out) {
      var k: nat :| HeadWriteFailed(order, cur, rest, out, k);
      LiftHeadFailure(order, s, p, done, cur, sent, out, k);
    } else if err.HeaderTooLarge? {
      assert rest[n..] == p[done + n..];
    }
  }

  /** A body piece that stopped early is accounted for byte by byte. */
  lemma StoppedInBody(order: Order, s: WireState, p: bytes, n: nat, err: WriteError, s': WireState)
    requires s.Valid() && n <= |p| && FeedWire(order, s, p[..n]) == Fed(s', p[..n])
    requires err.ConnFailed? || (err.MalformedChunk? && FeedWire(order, s, p).Malformed?)
    ensures WriteOutcome(order, s, p, n, err, s', p[..n])
  {
    hide FeedWire;
  }

  lemma AllWritten(order: Order, s: WireState, p: bytes, s': WireState, sent: bytes)
    requires s.Valid() && FeedWire(order, s, p) == Fed(s', sent) && (p != [] ==> s'.header == [])
    ensures WriteOutcome(order, s, p, |p|, NoError, s', sent)
  {
    hide FeedWire;
  }

  lemma LiftHeadFailure(order: Order, s: WireState, p: bytes, done: nat, cur: WireState, sent: bytes, out: bytes, k: nat)
    requires s.Valid() && cur.Valid() && done < |p| && FeedWire(order, s, p[..done]) == Fed(cur, sent)
    requires HeadWriteFailed(order, cur, p[done..], out, k)
    ensures HeadWriteFailed(order, s, p, sent + out, done + k)
  {
    hide FeedWire, FeedByte;
    FeedPrefix(order, s, p, done, cur, sent, k - 1);
    FeedPrefix(order, s, p, done, cur, sent, k);
    assert done + (k - 1) == done + k - 1;
    PrefixBehind(sent, FeedWire(order, cur, p[done..][..k - 1]).out, out);
    PrefixBehind(sent, out, FeedWire(order, cur, p[done..][..k]).out);
  }

  lemma PrefixBehind(sent: bytes, a: bytes, b: bytes)
    requires a <= b
    ensures sent + a <= sent + b
  {
    assert (sent + b)[..|sent| + |a|] == sent + a;
  }

  lemma FeedPrefix(order: Order, s: WireState, p: bytes, done: nat, cur: WireState, sent: bytes, n: nat)
    requires s.Valid() && cur.Valid() && done + n <= |p| && FeedWire(order, s, p[..done]) == Fed(cur, sent)
    ensures FeedWire(order, s, p[..done + n]) == Behind(sent, FeedWire(order, cur, p[done..][..n]))
  {
    hide FeedByte, FeedWire;
    assert p[..done + n] == p[..done] + p[done..][..n];
    FeedWireConcat(order, s, p[..done], p[done..][..n]);
  }

  class OrderedRequestConn {
    const conn: NetConn
    const order: Order
    var header: bytes
    var bodyRemaining: nat
    var chunked: Chunk.ChunkedRequestTracker?

    ghost function State(): WireState
      reads this, chunked
    {
      WireState(header, bodyRemaining, if chunked == null then None else Some(chunked.State()))
    }

    ghost predicate Valid()
      reads this, chunked
    {
      State().Valid()
    }

    constructor (conn: NetConn, order: Order)
      ensures this.conn == conn && this.order == order && Valid() && State() == IDLE
    {
      this.conn, this.order := conn, order;
      header, bodyRemaining, chunked := [], 0, null;
      new;
      EmptyHasNoTerminator();
    }

    /** The tracker object is kept, dropped, or replaced by a new one. */
    twostate predicate TrackerFrame()
      reads this
    {
      chunked == old(chunked) || chunked == null || fresh(chunked)
    }

    /** The body arm of Write: pass up to bodyRemaining bytes through. */
    method PassBody(remaining: bytes) returns (n: nat, errWrite: WriteError)
      requires Valid() && bodyRemaining > 0 && remaining != []
      modifies this`bodyRemaining, conn
      ensures Valid() && n <= |remaining| && (errWrite.NoError? ==> n > 0)
      ensures conn.wire == old(conn.wire) + remaining[..n] && header == []
      ensures FeedWire(order, old(State()), remaining[..n]) == Fed(State(), remaining[..n])
      ensures errWrite in {NoError, ConnFailed}
      ensures NonFailing(old(conn.script)) ==> errWrite.NoError? && NonFailing(conn.script)
    {
      hide FeedWire, FeedByte;
      var bodyBytes := if |remaining| < bodyRemaining then |remaining| else bodyRemaining;
      var written, failed := WriteAll(conn, remaining[..bodyBytes]);
      assert remaining[..bodyBytes][..written] == remaining[..written];
      FeedBody(order, State(), remaining[..written]);
      bodyRemaining := bodyRemaining - written;
      n, errWrite := written, if failed then ConnFailed else NoError;
    }

    /** The chunked arm of Write: preview on a clone, write, then advance the tracker over what was written. */
    method PassChunks(remaining: bytes) returns (n: nat, err: WriteError)
      requires Valid() && chunked != null && remaining != []
      modifies this`chunked, conn, chunked
      ensures Valid() && TrackerFrame() && n <= |remaining| && (err.NoError? ==> n > 0)
      ensures conn.wire == old(conn.wire) + remaining[..n] && header == []
      ensures FeedWire(order, old(State()), remaining[..n]) == Fed(State(), remaining[..n])
      ensures err in {NoError, ConnFailed, MalformedChunk}
      ensures err.MalformedChunk? ==> FeedWire(order, old(State()), remaining).Malformed?
      ensures NonFailing(old(conn.script)) ==> !err.ConnFailed? && NonFailing(conn.script)
    {
      hide FeedWire, FeedByte, Chunk.StepByte, Chunk.Feed;
      ghost var s := State();
      Chunk.ProgressIsPositive(chunked.State(), remaining);
      var preview := chunked.Clone();
      var chunkBytes, _, errChunk := preview.Consume(remaining);
      FeedChunks(order, s, remaining);
      if errChunk != Chunk.NoError {
        FeedChunks(order, s, remaining[..0]);
        FeedNothing(order, s);
        return 0, MalformedChunk;
      }
      var written, failed := WriteAll(conn, remaining[..chunkBytes]);
      assert remaining[..chunkBytes][..written] == remaining[..written];
      Chunk.ReplayPrefix(s.chunked.value, remaining, written);
      FeedChunks(order, s, remaining[..written]);
      var _, completed, errConsume := chunked.Consume(remaining[..written]);
      // The source checks errConsume here; a replayed prefix of a clean preview cannot fail.
      assert errConsume == Chunk.NoError;
      if completed {
        chunked := null;
        EmptyHasNoTerminator();
      }
      n, err := written, if failed then ConnFailed else NoError;
    }

    /** The header arm of Write: buffer, and once the terminator is there, rewrite the head and
        read the framing.  finished says that Write returns here. */
    method PassHeader(remaining: bytes) returns (n: nat, finished: bool, err: WriteError, ghost out: bytes)
      requires Valid() && bodyRemaining == 0 && chunked == null && remaining != []
      modifies this, conn
      ensures Valid() && TrackerFrame() && n <= |remaining| && (!finished ==> n > 0 && header == [])
      ensures conn.wire == old(conn.wire) + out
      ensures if finished then WriteOutcome(order, old(State()), remaining, n, err, State(), out)
              else FeedWire(order, old(State()), remaining[..n]) == Fed(State(), out)
      ensures NonFailing(old(conn.script)) ==> !(finished && err.ConnFailed?) && NonFailing(conn.script)
    {
      hide FeedWire, FeedByte, OrderedHead, Index;
      ghost var s := State();
      var previousHeaderLength := |header|;
      header := header + remaining;
      var headerEnd := Index(header, TERMINATOR);
      if headerEnd < 0 {
        FeedHeader(order, s, remaining);
        FeedNothing(order, s);
        assert remaining[..0] == [] && remaining[0..] == remaining;
        if |header| > MAX_HEADER {
          return 0, true, HeaderTooLarge, [];
        }
        return |remaining|, true, NoError, [];
      }

      headerEnd := headerEnd + 4;
      var head := header[..headerEnd];
      var body := header[headerEnd..];
      HeadEndsInside(s.header, remaining);
      n := headerEnd - previousHeaderLength;
      assert head == s.header + remaining[..n];
      FeedHead(order, s, remaining, n);
      EmptyHasNoTerminator();
      header := [];
      var ordered, contentLength, isChunked := OrderRequestHeader(head, order);
      var written, failed := WriteAll(conn, ordered);
      out := ordered[..written];
      if failed {
        assert HeadWriteFailed(order, s, remaining, out, n);
        return |remaining|, true, ConnFailed, out;
      }
      assert out == ordered;
      if isChunked {
        chunked := new Chunk.ChunkedRequestTracker();
      } else {
        bodyRemaining := contentLength;
      }
      finished, err := false, NoError;
    }

    /** One round of Write's loop. */
    method PassSome(remaining: bytes) returns (n: nat, finished: bool, err: WriteError, ghost out: bytes)
      requires Valid() && remaining != []
      modifies this, conn, chunked
      ensures Valid() && TrackerFrame() && n <= |remaining| && (!finished ==> n > 0 && header == [])
      ensures conn.wire == old(conn.wire) + out
      ensures if finished then WriteOutcome(order, old(State()), remaining, n, err, State(), out)
              else FeedWire(order, old(State()), remaining[..n]) == Fed(State(), out)
      ensures NonFailing(old(conn.script)) ==> !(finished && err.ConnFailed?) && NonFailing(conn.script)
    {
      hide FeedWire, FeedByte, WireState.Valid, NonFailing, WriteOutcome;
      ghost var s := State();
      if bodyRemaining > 0 {
        n, err := PassBody(remaining);
        finished, out := err != NoError, remaining[..n];
        if finished {
          StoppedInBody(order, s, remaining, n, err, State());
        }
      } else if chunked != null {
        n, err := PassChunks(remaining);
        finished, out := err != NoError, remaining[..n];
        if finished {
          StoppedInBody(order, s, remaining, n, err, State());
        }
      } else {
        n, finished, err, out := PassHeader(remaining);
      }
    }

    method Write(p: bytes) returns (n: nat, err: WriteError, ghost sent: bytes)
      requires Valid()
      modifies this, conn, chunked
      ensures Valid() && TrackerFrame()
      ensures conn.wire == old(conn.wire) + sent
      ensures WriteOutcome(order, old(State()), p, n, err, State(), sent)
      ensures NonFailing(old(conn.script)) ==> err != ConnFailed && NonFailing(conn.script)
    {
      hide FeedWire, FeedByte, WireState.Valid, NonFailing, WriteOutcome;
      n, err, sent := 0, NoError, [];
      var remaining := p;
      ghost var s := State();
      assert p[..0] == [];
      FeedNothing(order, s);
      while |remaining| > 0
        invariant n <= |p| && remaining == p[n..]
        invariant Valid() && TrackerFrame()
        invariant conn.wire == old(conn.wire) + sent
        invariant FeedWire(order, s, p[..n]) == Fed(State(), sent)
        invariant |remaining| == 0 ==> header == [] || p == []
        invariant NonFailing(old(conn.script)) ==> NonFailing(conn.script)
        decreases |remaining|
      {
        ghost var cur := State();
        ghost var out;
        var step, finished;
        step, finished, err, out := PassSome(remaining);
        if finished {
          LiftOutcome(order, s, p, n, cur, sent, step, err, State(), out);
          n, sent := n + step, sent + out;
          return;
        }
        FeedPrefix(order, s, p, n, cur, sent, step);
        assert remaining[step..] == p[n + step..];
        n, sent := n + step, sent + out;
        remaining := remaining[step..];
      }
      assert p[..|p|] == p;
      AllWritten(order, s, p, State(), sent);
      err := NoError;
    }
  }

  /** A terminator not yet in the buffered header ends inside the new bytes. */
  lemma HeadEndsInside(buffered: bytes, more: bytes)
    requires Index(buffered, TERMINATOR) < 0 && Index(buffered + more, TERMINATOR) >= 0
    ensures |buffered| < Index(buffered + more, TERMINATOR) + 4 <= |buffered| + |more|
  {
    assert (buffered + more)[..|buffered|] == buffered;
    IndexOfPrefix(buffered + more, |buffered|, TERMINATOR);
  }

  lemma FeedNothing(order: Order, s: WireState)
    requires s.Valid()
    ensures FeedWire(order, s, []) == Fed(s, [])
  {
  }
}
