/** Who owns the Home client's connections: the tracking map, a goroutine that is closing them, or no one because
    they are closed.  Each event is one critical section, or one close of one handle. */
module ConnMachine {

  /** A dialed connection or a redis client; identities are never reused. */
  type Handle = nat

  datatype Pools = Pools(cmd: set<Handle>, sub: set<Handle>, release: set<Handle>)   // each empty or one

  function All(p: Pools): set<Handle> {
    p.cmd + p.sub + p.release
  }

  /** A goroutine that was handed what it must close; a chained one first waits for the previous one. */
  datatype Closer = Closer(chained: bool, waitsFor: set<nat>, left: set<Handle>, finished: bool)

  datatype State = State(
    fenced: bool,
    dialing: set<Handle>,          // dialed, not yet under the mutex
    tracked: set<Handle>,          // the connections map
    returned: set<Handle>,         // handed out by the tracked dialer
    pools: Pools,
    dropping: set<Handle>,         // untracked by whoever calls its Close, not yet closed
    closed: set<Handle>,
    closers: seq<Closer>,
    closing: set<nat>,             // the closing channel: empty, or the last chained closer
    everything: set<Handle>)       // every handle there ever was

  /** What one call takes out of the client: the command client alone, the connections with both bootstrap clients, or
      those and the release client. */
  datatype Scope = Command | Bootstrap | Everything

  datatype Event =
    | Dial(conn: Handle)
    | Track(conn: Handle)
    | Untrack(conn: Handle)
    | Drop(conn: Handle)
    | OpenPool(handle: Handle, which: nat)
    | Fence
    | Detach(scope: Scope, chained: bool)
    | CloseOne(closer: nat, handle: Handle)
    | Finish(closer: nat)
    | ClearClosing

  /** A closer may work once the one it waits for has finished. */
  predicate Ready(s: State, i: nat)
    requires i < |s.closers|
  {
    forall k :: k in s.closers[i].waitsFor ==> k < |s.closers| && s.closers[k].finished
  }

  predicate Enabled(s: State, e: Event) {
    match e
    case Dial(conn) => conn !in s.everything
    case Track(conn) => conn in s.dialing
    case Untrack(conn) => conn in s.returned
    case Drop(conn) => conn in s.dropping
    case OpenPool(handle, which) => handle !in s.everything && !s.fenced && PoolIs(s.pools, which) == {}
    case Fence => true
    case Detach(_, _) => true
    case CloseOne(i, handle) => i < |s.closers| && Ready(s, i) && handle in s.closers[i].left
    case Finish(i) => i < |s.closers| && Ready(s, i) && s.closers[i].left == {} && !s.closers[i].finished
    case ClearClosing => s.closing != {} && forall k :: k in s.closing ==> k < |s.closers| && s.closers[k].finished
  }

  function PoolIs(p: Pools, which: nat): set<Handle> {
    if which == 0 then p.cmd else if which == 1 then p.sub else p.release
  }

  function WithPool(p: Pools, which: nat, handle: Handle): Pools {
    if which == 0 then p.(cmd := {handle}) else if which == 1 then p.(sub := {handle}) else p.(release := {handle})
  }

  function Taken(tracked: set<Handle>, p: Pools, scope: Scope): set<Handle> {
    match scope
    case Command => p.cmd
    case Bootstrap => tracked + p.cmd + p.sub
    case Everything => tracked + All(p)
  }

  function Emptied(p: Pools, scope: Scope): Pools {
    match scope
    case Command => p.(cmd := {})
    case Bootstrap => p.(cmd := {}, sub := {})
    case Everything => Pools({}, {}, {})
  }

  function Step(s: State, e: Event): State
    requires Enabled(s, e)
  {
    match e
    case Dial(conn) => s.(dialing := s.dialing + {conn}, everything := s.everything + {conn})
    case Track(conn) =>
      if s.fenced then s.(dialing := s.dialing - {conn}, dropping := s.dropping + {conn})
      else s.(dialing := s.dialing - {conn}, tracked := s.tracked + {conn}, returned := s.returned + {conn})
    case Untrack(conn) => s.(tracked := s.tracked - {conn}, dropping := s.dropping + {conn})
    case Drop(conn) => s.(dropping := s.dropping - {conn}, closed := s.closed + {conn})
    case OpenPool(handle, which) =>
      s.(pools := WithPool(s.pools, which, handle), everything := s.everything + {handle})
    case Fence => s.(fenced := true)
    case Detach(scope, chained) =>
      var closer := Closer(chained, if chained then s.closing else {}, Taken(s.tracked, s.pools, scope), false);
      s.(tracked := if scope.Command? then s.tracked else {}, pools := Emptied(s.pools, scope),
         closers := s.closers + [closer], closing := if chained then {|s.closers|} else s.closing)
    case CloseOne(i, handle) =>
      s.(closers := s.closers[i := s.closers[i].(left := s.closers[i].left - {handle})],
         tracked := s.tracked - {handle}, closed := s.closed + {handle})
    case Finish(i) => s.(closers := s.closers[i := s.closers[i].(finished := true)])
    case ClearClosing => s.(closing := {})
  }

  const FRESH := State(false, {}, {}, {}, Pools({}, {}, {}), {}, {}, [], {}, {})

  ghost predicate Pending(s: State, h: Handle) {
    exists i :: 0 <= i < |s.closers| && h in s.closers[i].left
  }

  /** Every handle has an owner, or is closed. */
  ghost predicate Owned(s: State, h: Handle) {
    h in s.dialing || h in s.tracked || h in All(s.pools) || h in s.dropping || h in s.closed || Pending(s, h)
  }

  ghost predicate NoneLost(s: State) {
    && (forall h :: h in s.everything ==> Owned(s, h))
    && s.returned <= s.everything && s.tracked <= s.returned && s.dialing <= s.everything
  }

  /** A finished closer has closed everything it was given. */
  ghost predicate ClosersOk(s: State) {
    forall i :: 0 <= i < |s.closers| && s.closers[i].finished ==> s.closers[i].left == {}
  }

  ghost predicate Chained(s: State, i: int) {
    0 <= i < |s.closers| && s.closers[i].chained
  }

  ghost predicate AllFinishedBefore(s: State, j: nat) {
    forall i :: i < j && Chained(s, i) ==> s.closers[i].finished
  }

  /** Chained closers queue up behind each other: each waits for the last one before it, unless that and all before
      it had finished when it was started. */
  ghost predicate ChainOk(s: State) {
    && (if s.closing == {} then AllFinishedBefore(s, |s.closers|)
        else exists k :: s.closing == {k} && Chained(s, k) && forall i :: i > k ==> !Chained(s, i))
    && (forall j :: Chained(s, j) ==> LinkOk(s, j))
    && forall j :: 0 <= j < |s.closers| && !s.closers[j].chained ==> s.closers[j].waitsFor == {}
  }

  ghost predicate LinkOk(s: State, j: nat)
    requires Chained(s, j)
  {
    if s.closers[j].waitsFor == {} then AllFinishedBefore(s, j)
    else exists k :: k < j && s.closers[j].waitsFor == {k} && Chained(s, k) && forall i :: k < i < j ==> !Chained(s, i)
  }

  predicate PoolsApart(p: Pools) {
    p.cmd !! p.sub && p.cmd !! p.release && p.sub !! p.release
  }

  /** A tracked connection or a pooled client is open and no one is closing it; a connection being dialed is nowhere
      else, and no client is in two pools. */
  ghost predicate Apart(s: State) {
    && s.tracked !! s.closed && s.tracked !! s.dropping
    && s.dialing !! s.closed && s.dialing !! s.dropping && s.dialing !! s.returned && s.dialing !! All(s.pools)
    && s.tracked !! All(s.pools) && All(s.pools) !! s.returned
    && s.closed <= s.everything && s.dropping <= s.everything && All(s.pools) <= s.everything
    && PoolsApart(s.pools) && All(s.pools) !! s.closed && All(s.pools) !! s.dropping
    && forall i :: 0 <= i < |s.closers| ==>
         && s.closers[i].left !! s.tracked && s.closers[i].left !! s.dialing && s.closers[i].left <= s.everything
         && s.closers[i].left !! All(s.pools)
  }

  ghost predicate Inv(s: State) {
    NoneLost(s) && Apart(s) && ClosersOk(s) && ChainOk(s) && OrderSoFar(s)
  }

  lemma StepKeepsOwners(s: State, e: Event)
    requires NoneLost(s) && ClosersOk(s) && Enabled(s, e)
    ensures NoneLost(Step(s, e))
  {
    var t := Step(s, e);
    forall h | h in t.everything ensures Owned(t, h) {
      if h in s.everything {
        assert Owned(s, h);
        if Pending(s, h) {
          var i :| 0 <= i < |s.closers| && h in s.closers[i].left;
          assert i < |t.closers| && (h in t.closers[i].left || h in t.closed);
        } else if e.Detach? {
          assert t.closers[|s.closers|].left == Taken(s.tracked, s.pools, e.scope);
        }
      }
    }
  }

  lemma StepKeepsClosers(s: State, e: Event)
    requires ClosersOk(s) && Enabled(s, e)
    ensures ClosersOk(Step(s, e))
  {
  }

  lemma ChainUnchanged(s: State, t: State)
    requires ChainOk(s) && t.closing == s.closing && |t.closers| == |s.closers|
    requires forall i :: 0 <= i < |s.closers| ==>
               && t.closers[i].chained == s.closers[i].chained && t.closers[i].waitsFor == s.closers[i].waitsFor
               && (s.closers[i].finished ==> t.closers[i].finished)
    ensures ChainOk(t)
  {
    forall i ensures Chained(t, i) <==> Chained(s, i) {
    }
    forall j | Chained(t, j) ensures LinkOk(t, j) {
      assert LinkOk(s, j);
    }
  }

  lemma DetachKeepsChain(s: State, scope: Scope, chained: bool)
    requires ChainOk(s)
    ensures ChainOk(Step(s, Detach(scope, chained)))
  {
    var t := Step(s, Detach(scope, chained));
    var n := |s.closers|;
    forall i | i < n ensures Chained(t, i) <==> Chained(s, i) {
    }
    forall j | Chained(t, j) ensures LinkOk(t, j) {
      if j < n {
        assert LinkOk(s, j);
      }
    }
    if chained {
      assert Chained(t, n);
    }
  }

  lemma ChainLink(s: State, j: nat)
    requires ChainOk(s) && Chained(s, j)
    ensures LinkOk(s, j)
  {
  }

  /** When a chained closer may work, everything chained before it has finished. */
  lemma FinishedInOrder(s: State, j: nat)
    requires ChainOk(s) && Chained(s, j) && Ready(s, j)
    requires OrderSoFar(s)
    ensures AllFinishedBefore(s, j)
  {
    hide ChainOk;
    ChainLink(s, j);
    if s.closers[j].waitsFor != {} {
      var k :| k < j && s.closers[j].waitsFor == {k} && Chained(s, k) && forall i :: k < i < j ==> !Chained(s, i);
      assert s.closers[k].finished && AllFinishedBefore(s, k);
      forall i | i < j && Chained(s, i) ensures s.closers[i].finished {
        assert i <= k;
      }
    }
  }

  /** Chained closers finish in the order they were started. */
  ghost predicate OrderSoFar(s: State) {
    forall j :: Chained(s, j) && s.closers[j].finished ==> AllFinishedBefore(s, j)
  }

  lemma StepKeepsApart(s: State, e: Event)
    requires Apart(s) && NoneLost(s) && Enabled(s, e)
    ensures Apart(Step(s, e))
  {
    hide Owned;
    var t := Step(s, e);
    forall i | 0 <= i < |t.closers|
      ensures t.closers[i].left !! t.tracked && t.closers[i].left !! t.dialing && t.closers[i].left <= t.everything
      ensures t.closers[i].left !! All(t.pools)
    {
      if i < |s.closers| {
        assert s.closers[i].left !! s.tracked;
      }
    }
  }

  lemma StepKeepsChain(s: State, e: Event)
    requires ChainOk(s) && OrderSoFar(s) && Enabled(s, e)
    ensures ChainOk(Step(s, e)) && OrderSoFar(Step(s, e))
  {
    hide ChainOk;
    var t := Step(s, e);
    if e.Detach? {
      DetachKeepsChain(s, e.scope, e.chained);
    } else if e.ClearClosing? {
      ClearKeepsChain(s);
    } else {
      ChainUnchanged(s, t);
    }
    forall j | Chained(t, j) && t.closers[j].finished ensures AllFinishedBefore(t, j) {
      assert Chained(s, j);
      if e == Finish(j) {
        FinishedInOrder(s, j);
      } else {
        assert AllFinishedBefore(s, j);
      }
    }
  }

  lemma ClearKeepsChain(s: State)
    requires ChainOk(s) && OrderSoFar(s) && Enabled(s, ClearClosing)
    ensures ChainOk(Step(s, ClearClosing))
  {
    var t := Step(s, ClearClosing);
    var k :| s.closing == {k} && Chained(s, k) && forall i :: i > k ==> !Chained(s, i);
    assert s.closers[k].finished && AllFinishedBefore(s, k);
    forall i ensures Chained(t, i) <==> Chained(s, i) {
    }
    forall j | Chained(t, j) ensures LinkOk(t, j) {
      assert Chained(s, j) && LinkOk(s, j);
    }
    forall i | i < |t.closers| && Chained(t, i) ensures t.closers[i].finished {
      assert Chained(s, i);
    }
  }

  /** Every step of every goroutine keeps the invariant. */
  lemma StepKeepsInv(s: State, e: Event)
    requires Inv(s) && Enabled(s, e)
    ensures Inv(Step(s, e))
  {
    hide NoneLost, Apart, ClosersOk, ChainOk, OrderSoFar, Step;
    StepKeepsOwners(s, e);
    StepKeepsApart(s, e);
    StepKeepsClosers(s, e);
    StepKeepsChain(s, e);
  }

  lemma FreshInv()
    ensures Inv(FRESH)
  {
  }

  // ----- whole runs -----

  predicate Runs(s: State, events: seq<Event>)
    decreases |events|
  {
    events == [] || (Enabled(s, events[0]) && Runs(Step(s, events[0]), events[1..]))
  }

  function After(s: State, events: seq<Event>): State
    requires Runs(s, events)
    decreases |events|
  {
    if events == [] then s else After(Step(s, events[0]), events[1..])
  }

  lemma {:induction false} RunKeepsInv(s: State, events: seq<Event>)
    requires Inv(s) && Runs(s, events)
    ensures Inv(After(s, events))
    decreases |events|
  {
    hide Inv, Step, Enabled;
    if events != [] {
      StepKeepsInv(s, events[0]);
      RunKeepsInv(Step(s, events[0]), events[1..]);
    }
  }

  /** In every reachable state each handle is tracked, a current pool, being dialed, closed, or with someone who is
      about to close it; a tracked connection or a pooled client is open and with no closer. */
  lemma AlwaysOwned(events: seq<Event>, conn: Handle)
    requires Runs(FRESH, events) && conn in After(FRESH, events).everything
    ensures var s := After(FRESH, events);
            && Owned(s, conn)
            && (conn in s.tracked || conn in All(s.pools) ==> conn !in s.closed && conn !in s.dropping && !Pending(s, conn))
            && PoolsApart(s.pools)
  {
    hide ChainOk, OrderSoFar, Owned;
    FreshInv();
    RunKeepsInv(FRESH, events);
  }

  /** Chained closers finish in the order they were started, in every run. */
  lemma ChainFinishesInOrder(events: seq<Event>, i: nat, j: nat)
    requires Runs(FRESH, events)
    requires i < j && Chained(After(FRESH, events), i) && Chained(After(FRESH, events), j) && After(FRESH, events).closers[j].finished
    ensures After(FRESH, events).closers[i].finished
  {
    hide NoneLost, Apart, ClosersOk, ChainOk;
    FreshInv();
    RunKeepsInv(FRESH, events);
    assert AllFinishedBefore(After(FRESH, events), j);
  }

  /** The client's lifetime is over: fenced, and everything it tracked handed to a closer. */
  predicate ShutDown(s: State) {
    s.fenced && s.tracked == {} && All(s.pools) == {}
  }

  lemma {:induction false} FenceStays(s: State, events: seq<Event>)
    requires s.fenced && Runs(s, events)
    ensures After(s, events).fenced
    decreases |events|
  {
    if events != [] {
      FenceStays(Step(s, events[0]), events[1..]);
    }
  }

  /** After that nothing is ever tracked, returned or opened again. */
  lemma {:induction false} ShutDownForever(s: State, events: seq<Event>)
    requires ShutDown(s) && Runs(s, events)
    ensures ShutDown(After(s, events)) && After(s, events).returned == s.returned
    decreases |events|
  {
    if events != [] {
      ShutDownForever(Step(s, events[0]), events[1..]);
    }
  }

  /** No one is in the middle of anything. */
  predicate Quiet(s: State) {
    s.dialing == {} && s.dropping == {} && forall i :: 0 <= i < |s.closers| ==> s.closers[i].finished
  }

  /** Close and AbortAmbiguousDispatch: raise the fence and, some time later, detach everything.  Whatever happened
      before, between and after, once no one is in the middle of anything every handle there ever was is closed. */
  lemma ShutdownClosesEverything(before: seq<Event>, between: seq<Event>, after: seq<Event>)
    requires Runs(FRESH, before)
    requires var s := Step(After(FRESH, before), Fence);
             && Runs(s, between)
             && var t := Step(After(s, between), Detach(Everything, false));
             Runs(t, after) && Quiet(After(t, after))
    ensures var t := Step(After(Step(After(FRESH, before), Fence), between), Detach(Everything, false));
            After(t, after).everything <= After(t, after).closed && After(t, after).returned == t.returned
  {
    hide ChainOk, OrderSoFar, Runs, After, Inv;
    FreshInv();
    var r := After(FRESH, before);
    RunKeepsInv(FRESH, before);
    StepKeepsInv(r, Fence);
    var s := Step(r, Fence);
    RunKeepsInv(s, between);
    FenceStays(s, between);
    var d := After(s, between);
    StepKeepsInv(d, Detach(Everything, false));
    var t := Step(d, Detach(Everything, false));
    RunKeepsInv(t, after);
    ShutDownForever(t, after);
    QuietMeansClosed(After(t, after));
  }

  lemma QuietMeansClosed(s: State)
    requires Inv(s) && ShutDown(s) && Quiet(s)
    ensures s.everything <= s.closed
  {
    forall h | h in s.everything ensures h in s.closed {
      assert Owned(s, h);
    }
  }

  // ----- closing does not get stuck -----

  /** While some closer is unfinished, some unfinished closer may work: the first of them waits for none of the others. */
  lemma {:induction false} SomeCloserReady(s: State, j: nat) returns (i: nat)
    requires ChainOk(s) && OrderSoFar(s) && j < |s.closers| && !s.closers[j].finished
    ensures i < |s.closers| && !s.closers[i].finished && Ready(s, i)
    decreases j
  {
    i := j;
    if Chained(s, j) && !Ready(s, j) {
      ChainLink(s, j);
      var k :| k < j && s.closers[j].waitsFor == {k} && Chained(s, k) && forall l :: k < l < j ==> !Chained(s, l);
      i := SomeCloserReady(s, k);
    }
  }

  /** How much the closers still have to do. */
  function Outstanding(closers: seq<Closer>): nat {
    if closers == [] then 0
    else
      var last := closers[|closers| - 1];
      Outstanding(closers[..|closers| - 1]) + |last.left| + (if last.finished then 0 else 1)
  }

  lemma {:induction false} OutstandingDrops(closers: seq<Closer>, i: nat, c: Closer)
    requires i < |closers|
    requires |c.left| + (if c.finished then 0 else 1) < |closers[i].left| + (if closers[i].finished then 0 else 1)
    ensures Outstanding(closers[i := c]) < Outstanding(closers)
    decreases |closers|
  {
    var n := |closers| - 1;
    if i == n {
      assert closers[i := c][..n] == closers[..n];
    } else {
      assert closers[i := c][..n] == closers[..n][i := c];
      OutstandingDrops(closers[..n], i, c);
    }
  }

  /** Closing never gets stuck: while some closer is unfinished, a step of some closer is enabled that leaves less to do. */
  lemma ClosingProgresses(s: State, j: nat) returns (e: Event)
    requires Inv(s) && j < |s.closers| && !s.closers[j].finished
    ensures (e.CloseOne? || e.Finish?) && Enabled(s, e)
    ensures Outstanding(Step(s, e).closers) < Outstanding(s.closers)
  {
    hide NoneLost, Apart, ClosersOk, ChainOk, OrderSoFar, Outstanding;
    var i := SomeCloserReady(s, j);
    var c := s.closers[i];
    if c.left == {} {
      e := Finish(i);
      OutstandingDrops(s.closers, i, c.(finished := true));
    } else {
      var handle :| handle in c.left;
      e := CloseOne(i, handle);
      OutstandingDrops(s.closers, i, c.(left := c.left - {handle}));
    }
  }
}
