/** The Home client's connection lifecycle, cut at its critical sections: each piece is one step of the machine, and
    the shutdown calls are runs of it, with steps of other goroutines between any two pieces. */
module HomeClient {
  import opened ConnMachine

  class HomeClient {
    var dispatchFenced: bool
    var connections: set<Handle>
    var pools: Pools
    var closing: set<nat>
    var closers: seq<Closer>      // the goroutines that were started to close handles
    var dialing: set<Handle>      // and the handles themselves: what others are doing with them, and which are closed
    var returned: set<Handle>
    var dropping: set<Handle>
    var closed: set<Handle>
    var everything: set<Handle>

    function Abstract(): State
      reads this
    {
      State(dispatchFenced, dialing, connections, returned, pools, dropping, closed, closers, closing, everything)
    }

    ghost predicate Valid()
      reads this
    {
      Inv(Abstract())
    }

    constructor ()
      ensures Valid() && Abstract() == FRESH
    {
      dispatchFenced, connections, pools, closing := false, {}, Pools({}, {}, {}), {};
      dialing, returned, dropping, closed, closers, everything := {}, {}, {}, {}, [], {};
      new;
      FreshInv();
    }

    /** trackedRedisDialer, under the mutex.  A refused connection is closed by the dialer, outside. */
    method TrackDialed(conn: Handle) returns (ok: bool)
      requires Valid() && conn in dialing
      modifies this
      ensures Valid() && Abstract() == Step(old(Abstract()), Track(conn)) && (ok <==> !old(dispatchFenced))
    {
      hide Inv;
      StepKeepsInv(Abstract(), Track(conn));
      dialing := dialing - {conn};
      if dispatchFenced {
        dropping := dropping + {conn};
        return false;
      }
      connections, returned := connections + {conn}, returned + {conn};
      ok := true;
    }

    /** homeDispatchConn.Close, first half: forget the connection.  Doing it again does nothing more to the map. */
    method UntrackConn(conn: Handle)
      requires Valid() && conn in returned
      modifies this
      ensures Valid() && Abstract() == Step(old(Abstract()), Untrack(conn))
    {
      hide Inv;
      StepKeepsInv(Abstract(), Untrack(conn));
      connections := connections - {conn};
      dropping := dropping + {conn};
    }

    /** homeDispatchConn.Close, second half: close the connection underneath. */
    method CloseUnderlying(conn: Handle)
      requires Valid() && conn in dropping
      modifies this
      ensures Valid() && Abstract() == Step(old(Abstract()), Event.Drop(conn))
    {
      hide Inv;
      StepKeepsInv(Abstract(), Event.Drop(conn));
      dropping, closed := dropping - {conn}, closed + {conn};
    }

    /** ensureClients and concurrencyReleaseClient, under the mutex: a missing pool is opened unless fenced. */
    method EnsurePool(which: nat, handle: Handle) returns (ok: bool)
      requires Valid() && handle !in everything
      modifies this
      ensures Valid() && (ok <==> !old(dispatchFenced))
      ensures Abstract() == if Enabled(old(Abstract()), OpenPool(handle, which))
                            then Step(old(Abstract()), OpenPool(handle, which)) else old(Abstract())
      ensures ok ==> PoolIs(pools, which) != {}
    {
      hide Inv;
      ok := !dispatchFenced;
      if ok && PoolIs(pools, which) == {} {
        StepKeepsInv(Abstract(), OpenPool(handle, which));
        pools, everything := WithPool(pools, which, handle), everything + {handle};
      }
    }

    /** detachClientsLocked with or without the release client, promoteSubscription's detaching of the command client
        alone, and closeClientsLocked's new closing channel. */
    method DetachClients(scope: Scope, chained: bool) returns (handles: set<Handle>, me: nat)
      requires Valid()
      modifies this
      ensures Valid() && Abstract() == Step(old(Abstract()), Detach(scope, chained))
      ensures me == |old(closers)| && me < |closers| && closers[me].left == handles && !closers[me].finished
      ensures handles == Taken(old(connections), old(pools), scope)
    {
      hide Inv;
      StepKeepsInv(Abstract(), Detach(scope, chained));
      handles := Taken(connections, pools, scope);
      me := |closers|;
      closers := closers + [Closer(chained, if chained then closing else {}, handles, false)];
      connections := if scope.Command? then connections else {};
      pools := Emptied(pools, scope);
      if chained {
        closing := {me};
      }
    }

    /** One step of some other goroutine. */
    method OtherStep(e: Event)
      requires Valid() && Enabled(Abstract(), e)
      modifies this
      ensures Valid() && Abstract() == Step(old(Abstract()), e)
    {
      hide Inv, Step, Enabled;
      StepKeepsInv(Abstract(), e);
      var t := Step(Abstract(), e);
      dispatchFenced, dialing, connections, returned, pools := t.fenced, t.dialing, t.tracked, t.returned, t.pools;
      dropping, closed, closers, closing, everything := t.dropping, t.closed, t.closers, t.closing, t.everything;
    }

    /** What others do in between: anything but the work of closer `me`. */
    method Others(events: seq<Event>, me: nat) returns (ghost ran: seq<Event>)
      requires Valid()
      modifies this
      ensures Valid() && Runs(old(Abstract()), ran) && Abstract() == After(old(Abstract()), ran)
      ensures Kept(old(Abstract()), Abstract(), {me}) && (events == [] ==> ran == [])
    {
      hide Inv, Runs, After, Step, Enabled, Kept;
      ghost var start := Abstract();
      ran := [];
      RunNone(start);
      KeptSame(start, {me});
      for i := 0 to |events|
        invariant Valid() && Runs(start, ran) && Abstract() == After(start, ran) && Kept(start, Abstract(), {me})
        invariant i == 0 ==> ran == []
      {
        if Enabled(Abstract(), events[i]) && !WorkOf(me, events[i]) {
          OtherStepKept(Abstract(), events[i], me);
          ghost var before := Abstract();
          RunMore(start, ran, events[i]);
          OtherStep(events[i]);
          KeptMore(start, before, Abstract(), {me});
          ran := ran + [events[i]];
        }
      }
    }

    /** Close one of the handles that were handed over. */
    method CloseNext(me: nat, handle: Handle)
      requires Valid() && me < |closers| && Ready(Abstract(), me) && handle in closers[me].left
      modifies this
      ensures Valid() && Enabled(old(Abstract()), CloseOne(me, handle))
      ensures Abstract() == Step(old(Abstract()), CloseOne(me, handle)) && Kept(old(Abstract()), Abstract(), {})
      ensures closers == old(closers)[me := old(closers)[me].(left := old(closers)[me].left - {handle})]
      ensures connections == old(connections) - {handle} && closed == old(closed) + {handle} && Ready(Abstract(), me)
      ensures Abstract() == old(Abstract()).(closers := closers, tracked := connections, closed := closed)
    {
      hide Inv, Step, Enabled, Kept, Ready;
      CloseOneMeans(Abstract(), me, handle);
      StepKeepsInv(Abstract(), CloseOne(me, handle));
      StepKept(Abstract(), CloseOne(me, handle));
      closers := closers[me := closers[me].(left := closers[me].left - {handle})];
      connections, closed := connections - {handle}, closed + {handle};
    }

    /** closeDetachedClients: close what was handed over, one by one, and be done, whatever others do before each. */
    method CloseDetached(handles: set<Handle>, me: nat, script: seq<seq<Event>>) returns (ghost steps: seq<Event>)
      requires Valid() && me < |closers| && Ready(Abstract(), me) && closers[me].left == handles && !closers[me].finished
      modifies this
      ensures Valid() && Runs(old(Abstract()), steps) && Abstract() == After(old(Abstract()), steps)
      ensures handles <= closed && |closers| >= |old(closers)| && closers[me].finished && closers[me].left == {}
      ensures Kept(old(Abstract()), Abstract(), {})
      ensures script == [] ==>
                && closed == old(closed) + handles && connections == old(connections) - handles
                && closers == old(closers)[me := old(closers)[me].(left := {}, finished := true)]
                && Abstract() == old(Abstract()).(closers := closers, tracked := connections, closed := closed)
    {
      hide Inv, Runs, After, Step, Enabled, Kept, Ready;
      ghost var start := Abstract();
      steps := [];
      RunNone(start);
      KeptSame(start, {});
      var rest, round := handles, 0;
      while rest != {}
        invariant Valid() && Runs(start, steps) && Abstract() == After(start, steps) && Kept(start, Abstract(), {})
        invariant rest <= handles && me < |closers| && closers[me].left == rest
        invariant !closers[me].finished && Ready(Abstract(), me)
        invariant handles - rest <= closed
        invariant script == [] ==>
          && closed == start.closed + (handles - rest) && connections == start.tracked - (handles - rest)
          && closers == start.closers[me := start.closers[me].(left := rest)]
          && Abstract() == start.(closers := closers, tracked := connections, closed := closed)
        decreases rest
      {
        ghost var before := Abstract();
        if round < |script| {
          ghost var ran := Others(script[round], me);
          KeptMine(before, Abstract(), me);
          KeptMore(start, before, Abstract(), {});
          RunAppend(start, steps, ran);
          steps := steps + ran;
        }
        round := round + 1;
        ghost var between := Abstract();
        var handle :| handle in rest;
        CloseNext(me, handle);
        RunMore(start, steps, CloseOne(me, handle));
        rest := rest - {handle};
        KeptMore(start, between, Abstract(), {});
        steps := steps + [CloseOne(me, handle)];
      }
      ghost var last := Abstract();
      FinishMeans(last, me);
      StepKeepsInv(last, Finish(me));
      StepKept(last, Finish(me));
      RunMore(start, steps, Finish(me));
      closers := closers[me := closers[me].(finished := true)];
      KeptMore(start, last, Abstract(), {});
      KeptMeans(start, Abstract());
      steps := steps + [Finish(me)];
    }

    /** Close: fence, detach, close, and wait for the closers that were queued up.  Others may still open or detach
        something between the fence and the detach and go on afterwards; from the detach on nothing is tracked, and every
        handle that is not still being dialed is closed or with someone else who is about to close it.  Once the wait is
        over every chained closer that was there has finished.  If no one comes between, all that was tracked or pooled at
        the start is closed. */
    method Close(fencing: seq<Event>, script: seq<seq<Event>>, waiting: seq<Event>)
      returns (released: bool, ghost awaited: set<nat>, ghost steps: seq<Event>)
      requires Valid()
      modifies this
      ensures Valid() && Runs(old(Abstract()), steps) && Abstract() == After(old(Abstract()), steps)
      ensures ShutDown(Abstract())
      ensures forall h :: h in everything && h !in dialing ==> h in closed || h in dropping || Pending(Abstract(), h)
      ensures released ==> AllFinishedBefore(Abstract(), |old(closers)|)
      ensures fencing == [] ==> old(connections) + All(old(pools)) <= closed && awaited == old(closing)
      ensures released <==> forall k :: k in awaited ==> k < |closers| && closers[k].finished
      ensures fencing == [] && script == [] && waiting == [] ==> closed == old(closed) + old(connections) + All(old(pools))
    {
      hide Inv, Runs, After, Step, Enabled, Kept, Ready, ShutDown, AllFinishedBefore;
      ghost var start := Abstract();
      FenceMeans(start);
      StepKept(start, Fence);
      StepKeepsInv(start, Fence);
      dispatchFenced := true;
      RunOne(start, Fence);
      ghost var fenced := Abstract();
      steps := Others(fencing, |closers|);
      RunNone(fenced);
      KeptNone(fenced, Abstract(), |fenced.closers|);
      KeptMore(start, fenced, Abstract(), {});
      RunAppend(start, [Fence], steps);
      steps := [Fence] + steps;
      ghost var full := Abstract();
      KeptMeans(fenced, full);
      var handles, me := DetachClients(Everything, false);
      ghost var detached := Abstract();
      DetachMeans(full, Everything, detached);
      StepKept(full, Detach(Everything, false));
      RunMore(start, steps, Detach(Everything, false));
      steps := steps + [Detach(Everything, false)];
      var seen := closing;
      awaited := seen;
      ghost var rest := CloseDetached(handles, me, script);
      RunAppend(start, steps, rest);
      steps := steps + rest;
      ghost var finished := Abstract();
      KeptMeans(detached, finished);
      rest := Others(waiting, me);
      RunNone(finished);
      KeptMine(finished, Abstract(), me);
      KeptMeans(finished, Abstract());
      RunAppend(start, steps, rest);
      steps := steps + rest;
      KeptMore(detached, finished, Abstract(), {});
      KeptMore(full, detached, Abstract(), {});
      KeptMore(start, full, Abstract(), {});
      released := forall k :: k in seen ==> k < |closers| && closers[k].finished;
      if released {
        AwaitedFinished(detached, Abstract());
        FinishedBefore(Abstract(), |start.closers|, |detached.closers|);
      }
      ShutMeansOwned(Abstract());
    }

    /** closeBootstrapPools: the release client stays. */
    method CloseBootstrapPools(script: seq<seq<Event>>) returns (ghost steps: seq<Event>)
      requires Valid()
      modifies this
      ensures Valid() && Runs(old(Abstract()), steps) && Abstract() == After(old(Abstract()), steps)
      ensures old(connections) + old(pools).cmd + old(pools).sub <= closed
      ensures steps != [] && steps[0] == Detach(Bootstrap, false)
      ensures script == [] ==>
                && closed == old(closed) + old(connections) + old(pools).cmd + old(pools).sub
                && pools == Pools({}, {}, old(pools).release) && connections == {} && dispatchFenced == old(dispatchFenced)
      ensures script == [] ==> old(pools).release !! closed
    {
      steps := DetachAndClose(Bootstrap, script);
    }

    /** promoteSubscription: replace the command client; its connections stay tracked until the pool closes them. */
    method PromoteSubscription(script: seq<seq<Event>>) returns (ghost steps: seq<Event>)
      requires Valid()
      modifies this
      ensures Valid() && Runs(old(Abstract()), steps) && Abstract() == After(old(Abstract()), steps)
      ensures old(pools).cmd <= closed
      ensures steps != [] && steps[0] == Detach(Command, false)
      ensures script == [] ==>
                && closed == old(closed) + old(pools).cmd && connections == old(connections)
                && pools == old(pools).(cmd := {}) && dispatchFenced == old(dispatchFenced)
    {
      steps := DetachAndClose(Command, script);
    }

    /** Detach some handles and close them. */
    method DetachAndClose(scope: Scope, script: seq<seq<Event>>) returns (ghost steps: seq<Event>)
      requires Valid()
      modifies this
      ensures Valid() && Runs(old(Abstract()), steps) && Abstract() == After(old(Abstract()), steps)
      ensures Taken(old(connections), old(pools), scope) <= closed
      ensures steps != [] && steps[0] == Detach(scope, false)
      ensures script == [] ==>
                && closed == old(closed) + Taken(old(connections), old(pools), scope) && pools == Emptied(old(pools), scope)
                && connections == (if scope.Command? then old(connections) else {}) && dispatchFenced == old(dispatchFenced)
    {
      hide Inv, Runs, After, Step, Enabled, Kept, Ready;
      ghost var start := Abstract();
      var handles, me := DetachClients(scope, false);
      DetachMeans(start, scope, Abstract());
      CommandIsNotTracked(start);
      RunOne(start, Detach(scope, false));
      ghost var rest := CloseDetached(handles, me, script);
      RunAppend(start, [Detach(scope, false)], rest);
      steps := [Detach(scope, false)] + rest;
    }

    /** One pass of waitForClientsClosed after the channel it saw was closed: reset it if it is still the current one. */
    method ClearIfSame(seen: set<nat>) returns (cleared: bool)
      requires Valid() && seen != {} && forall k :: k in seen ==> k < |closers| && closers[k].finished
      modifies this
      ensures Valid() && (cleared <==> old(closing) == seen)
      ensures Abstract() == if cleared then Step(old(Abstract()), ClearClosing) else old(Abstract())
    {
      hide Inv;
      cleared := closing == seen;
      if cleared {
        StepKeepsInv(Abstract(), ClearClosing);
        closing := {};
      }
    }
  }

  // ----- what the steps of others leave alone -----

  predicate WorkOf(me: nat, e: Event) {
    e == Finish(me) || (e.CloseOne? && e.closer == me)
  }

  /** Closers are never forgotten, finished ones stay finished, closed handles stay closed, the fence stays up, what was
      shut down stays so; and the closers in `mine` are as they were. */
  ghost predicate Kept(s: State, t: State, mine: set<nat>) {
    && |s.closers| <= |t.closers| && s.closed <= t.closed && (s.fenced ==> t.fenced) && (ShutDown(s) ==> ShutDown(t))
    && forall i :: 0 <= i < |s.closers| ==> CloserKept(s.closers[i], t.closers[i], i in mine)
  }

  predicate CloserKept(c: Closer, d: Closer, whole: bool) {
    && d.chained == c.chained && d.waitsFor == c.waitsFor && (c.finished ==> d.finished) && (whole ==> d == c)
  }

  lemma KeptSame(s: State, mine: set<nat>)
    ensures Kept(s, s, mine)
  {
  }

  lemma StepKept(s: State, e: Event)
    requires Enabled(s, e)
    ensures Kept(s, Step(s, e), {})
  {
  }

  lemma OtherStepKept(s: State, e: Event, me: nat)
    requires Enabled(s, e) && !WorkOf(me, e)
    ensures Kept(s, Step(s, e), {me})
  {
  }

  lemma KeptMore(r: State, s: State, t: State, mine: set<nat>)
    requires Kept(r, s, mine) && Kept(s, t, mine)
    ensures Kept(r, t, mine)
  {
  }

  lemma KeptNone(s: State, t: State, me: nat)
    requires Kept(s, t, {me})
    ensures Kept(s, t, {})
  {
  }

  lemma KeptMeans(s: State, t: State)
    requires Kept(s, t, {})
    ensures |s.closers| <= |t.closers| && s.closed <= t.closed && (s.fenced ==> t.fenced) && (ShutDown(s) ==> ShutDown(t))
  {
  }

  /** A closer that is left alone is as it was, may still work if it might before, and nothing it closed is open again. */
  lemma KeptMine(s: State, t: State, me: nat)
    requires Kept(s, t, {me}) && me < |s.closers|
    ensures me < |t.closers| && t.closers[me] == s.closers[me] && (Ready(s, me) ==> Ready(t, me))
    ensures s.closed <= t.closed && Kept(s, t, {})
  {
    assert CloserKept(s.closers[me], t.closers[me], true);
    if Ready(s, me) {
      forall k | k in t.closers[me].waitsFor ensures k < |t.closers| && t.closers[k].finished {
        assert CloserKept(s.closers[k], t.closers[k], k in {me});
      }
    }
  }

  /** When the closing channel seen at some moment is closed, every chained closer started before that has finished. */
  lemma AwaitedFinished(s: State, t: State)
    requires Inv(s) && Inv(t) && Kept(s, t, {})
    requires forall k :: k in s.closing ==> k < |t.closers| && t.closers[k].finished
    ensures AllFinishedBefore(t, |s.closers|)
  {
    forall i | i < |s.closers| && Chained(t, i) ensures t.closers[i].finished {
      assert CloserKept(s.closers[i], t.closers[i], i in {}) && Chained(s, i);
      if s.closing != {} {
        var k :| s.closing == {k} && Chained(s, k) && forall i :: i > k ==> !Chained(s, i);
        assert CloserKept(s.closers[k], t.closers[k], k in {}) && Chained(t, k);
        assert AllFinishedBefore(t, k) && i <= k;
      }
    }
  }

  lemma FinishedBefore(t: State, n: nat, m: nat)
    requires n <= m && AllFinishedBefore(t, m)
    ensures AllFinishedBefore(t, n)
  {
  }

  lemma ShutMeansOwned(s: State)
    requires Inv(s) && ShutDown(s)
    ensures s.tracked == {} && All(s.pools) == {}
    ensures forall h :: h in s.everything && h !in s.dialing ==> h in s.closed || h in s.dropping || Pending(s, h)
  {
    forall h | h in s.everything && h !in s.dialing ensures h in s.closed || h in s.dropping || Pending(s, h) {
      assert Owned(s, h);
    }
  }

  // ----- runs -----

  lemma RunNone(s: State)
    ensures Runs(s, []) && After(s, []) == s
  {
  }

  lemma {:induction false} RunAppend(s: State, front: seq<Event>, back: seq<Event>)
    requires Runs(s, front) && Runs(After(s, front), back)
    ensures Runs(s, front + back) && After(s, front + back) == After(After(s, front), back)
    decreases |front|
  {
    hide Step, Enabled;
    if front == [] {
      assert front + back == back;
    } else {
      assert (front + back)[1..] == front[1..] + back;
      RunAppend(Step(s, front[0]), front[1..], back);
    }
  }

  lemma RunOne(s: State, e: Event)
    requires Enabled(s, e)
    ensures Runs(s, [e]) && After(s, [e]) == Step(s, e)
  {
    assert [e][1..] == [];
    RunNone(Step(s, e));
  }

  lemma RunMore(s: State, steps: seq<Event>, e: Event)
    requires Runs(s, steps) && Enabled(After(s, steps), e)
    ensures Runs(s, steps + [e]) && After(s, steps + [e]) == Step(After(s, steps), e)
  {
    hide Step, Enabled;
    RunOne(After(s, steps), e);
    RunAppend(s, steps, [e]);
  }

  lemma FenceMeans(s: State)
    ensures Enabled(s, Fence) && Step(s, Fence) == s.(fenced := true)
  {
  }

  lemma DetachMeans(s: State, scope: Scope, t: State)
    requires t == Step(s, Detach(scope, false))
    ensures Enabled(s, Detach(scope, false))
    ensures t.pools == Emptied(s.pools, scope) && t.fenced == s.fenced && t.closed == s.closed
    ensures t.tracked == (if scope.Command? then s.tracked else {}) && t.closing == s.closing
    ensures |t.closers| == |s.closers| + 1
    ensures t.closers[|s.closers|] == Closer(false, {}, Taken(s.tracked, s.pools, scope), false) && Ready(t, |s.closers|)
    ensures s.fenced && scope.Everything? ==> ShutDown(t)
  {
  }

  lemma CommandIsNotTracked(s: State)
    requires Inv(s)
    ensures s.tracked - s.pools.cmd == s.tracked
  {
  }

  lemma CloseOneMeans(s: State, i: nat, handle: Handle)
    requires i < |s.closers| && Ready(s, i) && handle in s.closers[i].left
    ensures Enabled(s, CloseOne(i, handle))
    ensures var t := s.(closers := s.closers[i := s.closers[i].(left := s.closers[i].left - {handle})],
                        tracked := s.tracked - {handle}, closed := s.closed + {handle});
            Step(s, CloseOne(i, handle)) == t && Ready(t, i)
  {
  }

  lemma FinishMeans(s: State, i: nat)
    requires i < |s.closers| && Ready(s, i) && s.closers[i].left == {} && !s.closers[i].finished
    ensures Enabled(s, Finish(i))
    ensures Step(s, Finish(i)) == s.(closers := s.closers[i := s.closers[i].(finished := true)])
  {
  }
}
