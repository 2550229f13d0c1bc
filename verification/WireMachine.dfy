/** The reference semantics of the wire rewriter: what each caller byte, in order, puts on
    the wire and how it moves the framing state.  No buffering, no bulk moves, no cuts. */
module WireMachine {
  import opened Bytes
  import opened HeaderOrder
  import Chunk = ChunkTracker

  /** The framing state a connection keeps between bytes. */
  datatype WireState = WireState(header: bytes, bodyRemaining: nat, chunked: Option<Chunk.Tracker>)
  {
    ghost predicate Valid() {
      && (header != [] ==> bodyRemaining == 0 && chunked.None?)
      && (chunked.Some? ==> bodyRemaining == 0 && chunked.value.Valid())
      && Index(header, TERMINATOR) < 0
    }

    predicate InHeader() {
      bodyRemaining == 0 && chunked.None?
    }
  }

  const IDLE: WireState := WireState([], 0, None)

  /** The effect of some input: the new state and the bytes put on the wire. */
  datatype Fed = Fed(s: WireState, out: bytes) | Malformed

  function AfterHead(head: Head): WireState {
    if head.chunked then IDLE.(chunked := Some(Chunk.FRESH)) else IDLE.(bodyRemaining := head.contentLength)
  }

  function FeedByte(order: Order, s: WireState, b: byte): (r: Fed)
    requires s.Valid()
    ensures r.Fed? ==> r.s.Valid()
  {
    hide Index, OrderedHead;
    if s.bodyRemaining > 0 then Fed(s.(bodyRemaining := s.bodyRemaining - 1), [b])
    else if s.chunked.Some? then FeedChunkByte(s.chunked.value, b)
    else FeedHeaderByte(order, s.header, b)
  }

  function FeedChunkByte(t: Chunk.Tracker, b: byte): (r: Fed)
    requires t.Valid()
    ensures r.Fed? ==> r.s.Valid()
  {
    hide Index;
    EmptyHasNoTerminator();
    match Chunk.StepByte(t, b)
    case More(next) => Fed(IDLE.(chunked := Some(next)), [b])
    case Done(_) => Fed(IDLE, [b])
    case Bad(_, _, _) => Malformed
  }

  function FeedHeaderByte(order: Order, header: bytes, b: byte): (r: Fed)
    requires Index(header, TERMINATOR) < 0
    ensures r.Fed? ==> r.s.Valid()
  {
    hide Index, EndsWith, OrderedHead, AfterHead;
    HeaderByte(header, b);
    var grown := header + [b];
    if Index(grown, TERMINATOR) < 0 then Fed(WireState(grown, 0, None), [])
    else
      AfterHeadIsValid(OrderedHead(grown, order));
      var head := OrderedHead(grown, order);
      Fed(AfterHead(head), head.ordered)
  }

  lemma AfterHeadIsValid(head: Head)
    ensures AfterHead(head).Valid()
  {
    hide Index;
    EmptyHasNoTerminator();
  }

  lemma EmptyHasNoTerminator()
    ensures Index([], TERMINATOR) < 0
  {
  }

  /** A terminator completed by one byte ends the buffered header. */
  lemma HeaderByte(header: bytes, b: byte)
    requires Index(header, TERMINATOR) < 0
    ensures var grown := header + [b];
            Index(grown, TERMINATOR) >= 0 ==> Index(grown, TERMINATOR) + 4 == |grown| && EndsWith(grown, TERMINATOR)
  {
    var grown := header + [b];
    assert grown[..|header|] == header;
    IndexOfPrefix(grown, |header|, TERMINATOR);
    EndsWithIndex(grown, TERMINATOR);
  }

  /** The bytes of some input, fed one at a time. */
  ghost function FeedWire(order: Order, s: WireState, p: bytes): (r: Fed)
    requires s.Valid()
    ensures r.Fed? ==> r.s.Valid()
    decreases |p|
  {
    if p == [] then Fed(s, [])
    else
      match FeedByte(order, s, p[0])
      case Malformed => Malformed
      case Fed(next, out) => Behind(out, FeedWire(order, next, p[1..]))
  }

  function Behind(out: bytes, r: Fed): Fed {
    if r.Fed? then Fed(r.s, out + r.out) else r
  }

  /** Feeding composes over any cut. */
  lemma {:induction false} FeedWireConcat(order: Order, s: WireState, a: bytes, b: bytes)
    requires s.Valid()
    ensures var r := FeedWire(order, s, a);
            FeedWire(order, s, a + b) == if r.Fed? then Behind(r.out, FeedWire(order, r.s, b)) else r
    decreases |a|
  {
    hide FeedByte;
    if a == [] {
      assert a + b == b;
      assert Behind([], FeedWire(order, s, b)) == FeedWire(order, s, b);
    } else {
      assert (a + b)[0] == a[0] && (a + b)[1..] == a[1..] + b;
      var first := FeedByte(order, s, a[0]);
      if first.Fed? {
        FeedWireConcat(order, first.s, a[1..], b);
        var mid := FeedWire(order, first.s, a[1..]);
        if mid.Fed? && FeedWire(order, mid.s, b).Fed? {
          assert first.out + (mid.out + FeedWire(order, mid.s, b).out) == (first.out + mid.out) + FeedWire(order, mid.s, b).out;
        }
      }
    }
  }

  lemma FeedOne(order: Order, s: WireState, b: byte)
    requires s.Valid()
    ensures FeedWire(order, s, [b]) == FeedByte(order, s, b)
  {
    hide FeedByte;
    assert [b][1..] == [];
    var r := FeedByte(order, s, b);
    if r.Fed? {
      assert r.out + [] == r.out;
    }
  }

  /** Bytes of a Content-Length body pass through unchanged. */
  lemma {:induction false} FeedBody(order: Order, s: WireState, x: bytes)
    requires s.Valid() && |x| <= s.bodyRemaining
    ensures FeedWire(order, s, x) == Fed(s.(bodyRemaining := s.bodyRemaining - |x|), x)
    decreases |x|
  {
    if x != [] {
      var next := s.(bodyRemaining := s.bodyRemaining - 1);
      FeedBody(order, next, x[1..]);
      assert [x[0]] + x[1..] == x;
    }
  }

  /** The state after the tracker has run over some chunked-body bytes. */
  function AfterChunks(s: WireState, run: Chunk.Run): WireState {
    if run.end.Done? then IDLE else s.(chunked := Some(run.end.t))
  }

  /** Bytes the tracker consumes cleanly pass through unchanged; bytes it rejects make the input malformed. */
  lemma {:induction false} FeedChunks(order: Order, s: WireState, x: bytes)
    requires s.Valid() && s.chunked.Some?
    ensures var run := Chunk.Feed(s.chunked.value, x);
            && (run.end.Bad? ==> FeedWire(order, s, x).Malformed?)
            && (!run.end.Bad? && run.consumed == |x| ==> FeedWire(order, s, x) == Fed(AfterChunks(s, run), x))
    decreases |x|
  {
    hide Chunk.StepByte, OrderedHead;
    if x != [] {
      var step := Chunk.StepByte(s.chunked.value, x[0]);
      assert [x[0]] + x[1..] == x;
      if step.More? {
        FeedChunks(order, s.(chunked := Some(step.t)), x[1..]);
      } else if step.Done? && x[1..] == [] {
        assert FeedWire(order, IDLE, x[1..]) == Fed(IDLE, []);
      }
    }
  }

  /** Header bytes are held back until the terminator is there. */
  lemma {:induction false} FeedHeader(order: Order, s: WireState, x: bytes)
    requires s.Valid() && s.InHeader() && Index(s.header + x, TERMINATOR) < 0
    ensures FeedWire(order, s, x) == Fed(s.(header := s.header + x), [])
    decreases |x|
  {
    hide OrderedHead;
    if x == [] {
      assert s.header + x == s.header;
    } else {
      var grown := s.header + [x[0]];
      assert s.header + x == grown + x[1..] && (s.header + x)[..|grown|] == grown;
      IndexOfPrefix(s.header + x, |grown|, TERMINATOR);
      FeedHeader(order, s.(header := grown), x[1..]);
    }
  }

  /** The terminator is complete with the n-th byte, and not before. */
  lemma CutHead(header: bytes, x: bytes, n: nat)
    requires Index(header, TERMINATOR) < 0 && n <= |x|
    requires Index(header + x, TERMINATOR) + 4 == |header| + n && Index(header + x, TERMINATOR) >= 0
    ensures n > 0 && Index(header + x[..n - 1], TERMINATOR) < 0 && Index(header + x[..n], TERMINATOR) >= 0
    ensures x[..n - 1] + [x[n - 1]] == x[..n] && (header + x[..n - 1]) + [x[n - 1]] == header + x[..n]
  {
    hide Index;
    var all := header + x;
    PrefixOf(header, x, 0);
    IndexOfPrefix(all, |header|, TERMINATOR);
    PrefixOf(header, x, n);
    PrefixOf(header, x, n - 1);
    IndexOfPrefix(all, |header| + n, TERMINATOR);
    IndexOfPrefix(all, |header| + n - 1, TERMINATOR);
    PrefixSnoc(x, n - 1);
  }

  lemma PrefixOf(header: bytes, x: bytes, n: nat)
    requires n <= |x|
    ensures (header + x)[..|header| + n] == header + x[..n] && header + x[..0] == header
  {
  }

  /** The head goes out, rewritten, with the byte that completes it. */
  lemma FeedHead(order: Order, s: WireState, x: bytes, n: nat)
    requires s.Valid() && s.InHeader() && n <= |x|
    requires Index(s.header + x, TERMINATOR) + 4 == |s.header| + n && Index(s.header + x, TERMINATOR) >= 0
    ensures n > 0 && EndsWith(s.header + x[..n], TERMINATOR)
    ensures FeedWire(order, s, x[..n - 1]) == Fed(s.(header := s.header + x[..n - 1]), [])
    ensures FeedWire(order, s, x[..n]) ==
            var head := OrderedHead(s.header + x[..n], order); Fed(AfterHead(head), head.ordered)
  {
    hide OrderedHead, FeedByte, FeedWire, AfterHead, Index, EndsWith;
    CutHead(s.header, x, n);
    var held := s.(header := s.header + x[..n - 1]);
    FeedHeader(order, s, x[..n - 1]);
    FeedWireConcat(order, s, x[..n - 1], [x[n - 1]]);
    CompleteHead(order, held, x[n - 1]);
  }

  lemma CompleteHead(order: Order, s: WireState, b: byte)
    requires s.Valid() && s.InHeader() && Index(s.header + [b], TERMINATOR) >= 0
    ensures EndsWith(s.header + [b], TERMINATOR)
    ensures var head := OrderedHead(s.header + [b], order);
            Behind([], FeedWire(order, s, [b])) == Fed(AfterHead(head), head.ordered)
  {
    hide OrderedHead;
    HeaderByte(s.header, b);
    FeedOne(order, s, b);
    assert [] + OrderedHead(s.header + [b], order).ordered == OrderedHead(s.header + [b], order).ordered;
  }
}
