/** Whole request streams: what reaches the wire does not depend on how the caller cut the stream. */
module WireStream {
  import opened Bytes
  import opened HeaderOrder
  import opened WireMachine
  import opened OrderedConn
  import Chunk = ChunkTracker
  import ChunkGrammar

  /** One HTTP/1.1 request: its head up to and including the blank line, and its body. */
  datatype Request = Request(head: bytes, body: bytes)

  /** A well-formed request (RFC 9112, section 6.3): the head ends at its first blank line and fits
      the buffer, and the body is what the head announces, chunked or by length. */
  ghost predicate WellFormed(order: Order, r: Request) {
    && EndsWith(r.head, TERMINATOR) && Index(r.head, TERMINATOR) == |r.head| - 4
    && |r.head| <= MAX_HEADER
    && var head := OrderedHead(r.head, order);
       if head.chunked then ChunkGrammar.BodyLength(r.body) == Some(|r.body|)
       else |r.body| == head.contentLength
  }

  ghost predicate AllWellFormed(order: Order, requests: seq<Request>) {
    forall r :: r in requests ==> WellFormed(order, r)
  }

  /** The caller's bytes for a list of pipelined requests. */
  function StreamOf(requests: seq<Request>): bytes {
    if requests == [] then [] else requests[0].head + requests[0].body + StreamOf(requests[1..])
  }

  /** The bytes a server should see: every head rewritten, every body as it is. */
  ghost function WireOf(order: Order, requests: seq<Request>): bytes
    requires AllWellFormed(order, requests)
  {
    if requests == [] then []
    else
      assert requests[0] in requests;
      OrderedHead(requests[0].head, order).ordered + requests[0].body + WireOf(order, requests[1..])
  }

  /** Every prefix of the input is accepted and leaves at most a buffer-sized unfinished head. */
  ghost predicate Fits(order: Order, s: WireState, p: bytes)
    requires s.Valid()
  {
    forall n :: 0 <= n <= |p| ==>
      var r := FeedWire(order, s, p[..n]); r.Fed? && |r.s.header| <= MAX_HEADER
  }

  lemma FitsConcat(order: Order, s: WireState, a: bytes, b: bytes)
    requires s.Valid() && Fits(order, s, a)
    requires Fits(order, FeedWire(order, s, a[..|a|]).s, b)
    ensures Fits(order, s, a + b)
  {
    hide FeedWire, FeedByte;
    assert a[..|a|] == a;
    forall n | 0 <= n <= |a + b|
      ensures var r := FeedWire(order, s, (a + b)[..n]); r.Fed? && |r.s.header| <= MAX_HEADER
    {
      if n <= |a| {
        assert (a + b)[..n] == a[..n];
      } else {
        assert (a + b)[..n] == a + b[..n - |a|];
        FeedWireConcat(order, s, a, b[..n - |a|]);
      }
    }
  }

  lemma HeadFits(order: Order, r: Request)
    requires WellFormed(order, r)
    ensures EndsWith(r.head, TERMINATOR) && Fits(order, IDLE, r.head)
    ensures var head := OrderedHead(r.head, order); FeedWire(order, IDLE, r.head) == Fed(AfterHead(head), head.ordered)
  {
    hide FeedWire, FeedByte, OrderedHead, Index;
    assert [] + r.head == r.head && r.head[..|r.head|] == r.head;
    FeedHead(order, IDLE, r.head, |r.head|);
    forall n | 0 <= n < |r.head|
      ensures FeedWire(order, IDLE, r.head[..n]) == Fed(IDLE.(header := r.head[..n]), [])
    {
      IndexOfPrefix(r.head, n, TERMINATOR);
      assert [] + r.head[..n] == r.head[..n];
      FeedHeader(order, IDLE, r.head[..n]);
    }
  }

  lemma BodyFits(order: Order, r: Request)
    requires WellFormed(order, r)
    ensures var s := AfterHead(OrderedHead(r.head, order));
            Fits(order, s, r.body) && FeedWire(order, s, r.body) == Fed(IDLE, r.body)
  {
    hide FeedWire, FeedByte, OrderedHead, Chunk.Feed, Chunk.StepByte, ChunkGrammar.BodyLength;
    var head := OrderedHead(r.head, order);
    var s := AfterHead(head);
    assert r.body[..|r.body|] == r.body;
    if head.chunked {
      ChunkGrammar.TrackerEndsBodyExactly(r.body);
      forall n | 0 <= n <= |r.body|
        ensures var run := Chunk.Feed(Chunk.FRESH, r.body[..n]);
                FeedWire(order, s, r.body[..n]) == Fed(AfterChunks(s, run), r.body[..n])
      {
        Chunk.ReplayPrefix(Chunk.FRESH, r.body, n);
        FeedChunks(order, s, r.body[..n]);
      }
    } else {
      forall n | 0 <= n <= |r.body|
        ensures FeedWire(order, s, r.body[..n]) == Fed(s.(bodyRemaining := |r.body| - n), r.body[..n])
      {
        FeedBody(order, s, r.body[..n]);
      }
    }
  }

  /** The reference semantics turns a stream of well-formed requests into exactly the rewritten
      requests, and is idle again at the end. */
  lemma {:induction false} StreamToWire(order: Order, requests: seq<Request>)
    requires AllWellFormed(order, requests)
    ensures Fits(order, IDLE, StreamOf(requests))
    ensures FeedWire(order, IDLE, StreamOf(requests)) == Fed(IDLE, WireOf(order, requests))
  {
    hide FeedByte, OrderedHead, WellFormed;
    if requests != [] {
      var r := requests[0];
      assert r in requests;
      HeadFits(order, r);
      BodyFits(order, r);
      StreamToWire(order, requests[1..]);
      OneMore(order, r, StreamOf(requests[1..]), WireOf(order, requests[1..]));
    }
  }

  lemma OneMore(order: Order, r: Request, rest: bytes, wire: bytes)
    requires EndsWith(r.head, TERMINATOR)
    requires var head := OrderedHead(r.head, order);
             && Fits(order, IDLE, r.head) && FeedWire(order, IDLE, r.head) == Fed(AfterHead(head), head.ordered)
             && Fits(order, AfterHead(head), r.body) && FeedWire(order, AfterHead(head), r.body) == Fed(IDLE, r.body)
    requires Fits(order, IDLE, rest) && FeedWire(order, IDLE, rest) == Fed(IDLE, wire)
    ensures Fits(order, IDLE, r.head + r.body + rest)
    ensures FeedWire(order, IDLE, r.head + r.body + rest)
            == Fed(IDLE, OrderedHead(r.head, order).ordered + r.body + wire)
  {
    hide FeedWire, FeedByte, OrderedHead, Fits;
    assert r.head[..|r.head|] == r.head && (r.head + r.body)[..|r.head + r.body|] == r.head + r.body;
    FeedWireConcat(order, IDLE, r.head, r.body);
    FeedWireConcat(order, IDLE, r.head + r.body, rest);
    FitsConcat(order, IDLE, r.head, r.body);
    FitsConcat(order, IDLE, r.head + r.body, rest);
  }

  function Joined(pieces: seq<bytes>): bytes {
    if pieces == [] then [] else Joined(pieces[..|pieces| - 1]) + pieces[|pieces| - 1]
  }

  /** Piece i of a cutting is accepted: the stream up to its end is not malformed, and no unfinished
      head is over the limit there. */
  ghost predicate PieceAccepted(order: Order, s: WireState, pieces: seq<bytes>, i: nat)
    requires s.Valid() && i < |pieces|
  {
    var r := FeedWire(order, s, Joined(pieces[..i]) + pieces[i]);
    r.Fed? && (pieces[i] != [] ==> |r.s.header| <= MAX_HEADER)
  }

  /** The condition under which every Write of a cutting succeeds. */
  ghost predicate CutAccepted(order: Order, s: WireState, pieces: seq<bytes>)
    requires s.Valid()
  {
    forall j :: 0 <= j < |pieces| ==> PieceAccepted(order, s, pieces, j)
  }

  lemma JoinedNone(pieces: seq<bytes>)
    ensures Joined(pieces[..0]) == []
  {
  }

  lemma JoinedPrefix(pieces: seq<bytes>, i: nat)
    requires i < |pieces|
    ensures Joined(pieces[..i + 1]) == Joined(pieces[..i]) + pieces[i]
  {
    assert pieces[..i + 1][..i] == pieces[..i];
  }

  lemma PieceOutcome(order: Order, s: WireState, pieces: seq<bytes>, i: nat, cur: WireState, sent: bytes,
                     n: nat, err: WriteError, s': WireState, out: bytes)
    requires s.Valid() && cur.Valid() && i < |pieces| && FeedWire(order, s, Joined(pieces[..i])) == Fed(cur, sent)
    requires WriteOutcome(order, cur, pieces[i], n, err, s', out) && err != ConnFailed
    ensures err == NoError <==> PieceAccepted(order, s, pieces, i)
    ensures err == NoError ==> FeedWire(order, s, Joined(pieces[..i + 1])) == Fed(s', sent + out)
  {
    hide FeedWire, FeedByte, WireState.Valid;
    JoinedPrefix(pieces, i);
    FeedWireConcat(order, s, Joined(pieces[..i]), pieces[i]);
  }

  /** What goes out for a first part of the input is a prefix of what goes out for all of it. */
  lemma OutputGrows(order: Order, s: WireState, p: bytes, n: nat)
    requires s.Valid() && n <= |p| && FeedWire(order, s, p).Fed?
    ensures FeedWire(order, s, p[..n]).Fed? && FeedWire(order, s, p[..n]).out <= FeedWire(order, s, p).out
  {
    hide FeedWire, FeedByte;
    assert p == p[..n] + p[n..];
    FeedWireConcat(order, s, p[..n], p[n..]);
  }

  /** However a Write ends, nothing is on the wire but a prefix of what belongs there. */
  lemma OutcomeIsPrefix(order: Order, s: WireState, p: bytes, n: nat, err: WriteError, s': WireState, sent: bytes)
    requires s.Valid() && FeedWire(order, s, p).Fed? && WriteOutcome(order, s, p, n, err, s', sent)
    ensures sent <= FeedWire(order, s, p).out
  {
    hide FeedWire, FeedByte;
    OutputGrows(order, s, p, n);
    if err.ConnFailed? && FeedWire(order, s, p[..n]) != Fed(s', sent) {
      var k: nat :| HeadWriteFailed(order, s, p, sent, k);
      OutputGrows(order, s, p, k);
    }
  }

  /** The same for a piece of a stream. */
  lemma PiecePrefix(order: Order, s: WireState, pieces: seq<bytes>, i: nat, cur: WireState, sent: bytes,
                    n: nat, err: WriteError, s': WireState, out: bytes)
    requires s.Valid() && cur.Valid() && i < |pieces| && FeedWire(order, s, Joined(pieces[..i])) == Fed(cur, sent)
    requires WriteOutcome(order, cur, pieces[i], n, err, s', out) && FeedWire(order, s, Joined(pieces)).Fed?
    ensures sent + out <= FeedWire(order, s, Joined(pieces)).out
  {
    hide FeedWire, FeedByte, WireState.Valid, WriteOutcome, Joined;
    JoinedPrefix(pieces, i);
    JoinedIsPrefix(pieces, i + 1);
    var upTo := Joined(pieces[..i + 1]);
    OutputGrows(order, s, Joined(pieces), |upTo|);
    FeedWireConcat(order, s, Joined(pieces[..i]), pieces[i]);
    OutcomeIsPrefix(order, cur, pieces[i], n, err, s', out);
    PrefixBehind(sent, out, FeedWire(order, cur, pieces[i]).out);
  }

  /** A caller that sends a stream in pieces and stops at the first error.  Unless the connection fails all pieces
      are accepted iff the cut is; then the wire carries what the reference semantics says of the whole stream,
      whatever the cut and however short the writes.  And whatever happens, it carries no more than a prefix of that. */
  method SendPieces(c: OrderedRequestConn, pieces: seq<bytes>) returns (err: WriteError, ghost sent: bytes)
    requires c.Valid()
    modifies c, c.conn, c.chunked
    ensures c.Valid() && c.conn.wire == old(c.conn.wire) + sent
    ensures NonFailing(old(c.conn.script)) ==> err != ConnFailed
    ensures err != ConnFailed ==> (err == NoError <==> CutAccepted(c.order, old(c.State()), pieces))
    ensures err == NoError ==> FeedWire(c.order, old(c.State()), Joined(pieces)) == Fed(c.State(), sent)
    ensures var whole := FeedWire(c.order, old(c.State()), Joined(pieces)); whole.Fed? ==> sent <= whole.out
  {
    hide FeedWire, FeedByte, WireState.Valid, Joined, WriteOutcome, PieceAccepted, NonFailing;
    JoinedNone(pieces);
    ghost var s, cur := c.State(), c.State();
    sent := [];
    FeedNothing(c.order, s);
    for i := 0 to |pieces|
      invariant cur == c.State() && cur.Valid() && (NonFailing(old(c.conn.script)) ==> NonFailing(c.conn.script))
      invariant c.chunked == old(c.chunked) || c.chunked == null || fresh(c.chunked)
      invariant c.conn.wire == old(c.conn.wire) + sent
      invariant FeedWire(c.order, s, Joined(pieces[..i])) == Fed(cur, sent)
      invariant forall j :: 0 <= j < i ==> PieceAccepted(c.order, s, pieces, j)
    {
      var n;
      ghost var out;
      n, err, out := c.Write(pieces[i]);
      if FeedWire(c.order, s, Joined(pieces)).Fed? {
        PiecePrefix(c.order, s, pieces, i, cur, sent, n, err, c.State(), out);
      }
      if err != ConnFailed {
        PieceOutcome(c.order, s, pieces, i, cur, sent, n, err, c.State(), out);
      }
      sent := sent + out;
      cur := c.State();
      if err != NoError {
        return;
      }
    }
    assert pieces[..|pieces|] == pieces;
    err := NoError;
  }

  /** A stream of well-formed requests is accepted under every cut. */
  lemma WellFormedAcceptsEveryCut(order: Order, requests: seq<Request>, pieces: seq<bytes>)
    requires AllWellFormed(order, requests) && Joined(pieces) == StreamOf(requests)
    ensures CutAccepted(order, IDLE, pieces)
  {
    hide FeedWire, FeedByte, WellFormed;
    StreamToWire(order, requests);
    forall j | 0 <= j < |pieces| ensures PieceAccepted(order, IDLE, pieces, j) {
      JoinedPrefix(pieces, j);
      JoinedIsPrefix(pieces, j + 1);
    }
  }

  lemma {:induction false} JoinedIsPrefix(pieces: seq<bytes>, j: nat)
    requires j <= |pieces|
    ensures |Joined(pieces[..j])| <= |Joined(pieces)| && Joined(pieces)[..|Joined(pieces[..j])|] == Joined(pieces[..j])
    decreases |pieces|
  {
    if j == |pieces| {
      assert pieces[..j] == pieces;
      assert Joined(pieces)[..|Joined(pieces)|] == Joined(pieces);
    } else {
      var front := pieces[..|pieces| - 1];
      JoinedIsPrefix(front, j);
      assert front[..j] == pieces[..j];
    }
  }

  /** The stream theorem: for every list of well-formed pipelined requests, every cutting of their bytes into Write
      calls and every connection, the wire carries each head rewritten, followed by its body unchanged, or a prefix of
      that if the connection failed; a write fails only if the connection does, and it may write short at any time. */
  method SendRequests(c: OrderedRequestConn, ghost requests: seq<Request>, pieces: seq<bytes>)
    returns (err: WriteError, ghost sent: bytes)
    requires c.Valid() && c.State() == IDLE
    requires AllWellFormed(c.order, requests) && Joined(pieces) == StreamOf(requests)
    modifies c, c.conn, c.chunked
    ensures c.Valid() && c.conn.wire == old(c.conn.wire) + sent
    ensures err == NoError ==> c.State() == IDLE && sent == WireOf(c.order, requests)
    ensures err != NoError ==> err == ConnFailed && sent <= WireOf(c.order, requests)
    ensures NonFailing(old(c.conn.script)) ==> err == NoError
  {
    hide FeedWire, FeedByte, WellFormed, CutAccepted, Fits;
    WellFormedAcceptsEveryCut(c.order, requests, pieces);
    StreamToWire(c.order, requests);
    err, sent := SendPieces(c, pieces);
  }
}
