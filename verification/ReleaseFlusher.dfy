/** The release flusher: its methods, with other goroutines marking groups dirty between any two of its critical
    sections, proved to take only steps of the machine. */
module ReleaseFlusher {
  import opened Bytes
  import opened ReleaseMachine

  /** Home, as the flusher sees it: it takes some of the frames it is sent and refuses the others. */
  class Home {
    const answers: seq<bool>
    var tried: seq<Frame>    // every frame it was sent
    var log: set<Frame>      // the frames it accepted

    constructor (answers: seq<bool>)
      ensures this.answers == answers && tried == [] && log == {}
    {
      this.answers, tried, log := answers, [], {};
    }

    method Send(frame: Frame) returns (accepted: bool)
      modifies this
      ensures tried == old(tried) + [frame] && (accepted <==> Accepts(answers, |old(tried)|))
      ensures log == if accepted then old(log) + {frame} else old(log)
    {
      accepted := |tried| >= |answers| || answers[|tried|];
      tried := tried + [frame];
      if accepted {
        log := log + {frame};
      }
    }
  }

  /** Whether Home accepts the i-th frame it is sent. */
  predicate Accepts(answers: seq<bool>, i: nat) {
    i < |answers| ==> answers[i]
  }

  class ReleaseFlusher {
    const script: seq<seq<Frame>>   // what others mark while a send is under way
    const home: Home
    const hasSender: bool
    var turn: nat
    var groups: map<Group, ReleaseState>
    var closed: set<Chan>     // the channels that are closed; closing one twice would panic
    var nextChan: Chan
    ghost var tickets: set<Ticket>

    ghost function Abstract(): State
      reads this, home
    {
      State(groups, closed, nextChan, tickets, home.log)
    }

    ghost predicate Valid()
      reads this, home
    {
      Inv(Abstract())
    }

    constructor (script: seq<seq<Frame>>, home: Home, hasSender: bool)
      requires home.log == {}
      ensures Valid() && Abstract() == FRESH && this.script == script && this.home == home && this.hasSender == hasSender
    {
      this.script, this.home, this.hasSender, turn := script, home, hasSender, 0;
      groups, closed, nextChan, tickets := map[], {}, 0, {};
      new;
      FreshInv();
    }

    /** close(done): never of a closed channel. */
    method CloseChan(c: Chan)
      requires c !in closed
      modifies this`closed
      ensures closed == old(closed) + {c}
    {
      closed := closed + {c};
    }

    /** MarkDirty */
    method MarkDirty(group: Group, sequence: int) returns (result: Option<Ticket>)
      requires Valid()
      modifies this`groups, this`closed, this`nextChan, this`tickets
      ensures Valid()
      ensures sequence <= 0 || group.credential == "" || group.model == "" <==> result.None?
      ensures result.None? ==> Abstract() == old(Abstract())
      ensures result.Some? ==>
                && Abstract() == Step(old(Abstract()), Mark(group, sequence))
                && result.value == Ticket(old(nextChan), group, sequence)
    {
      hide Inv;
      if sequence <= 0 || group.credential == "" || group.model == "" {
        return None;
      }
      FreshChan(Abstract());
      StepKeepsInv(Abstract(), Mark(group, sequence));
      var done := nextChan;
      nextChan := nextChan + 1;
      var state := if group in groups then groups[group] else NO_STATE;
      if sequence <= state.acked {
        CloseChan(done);
      } else {
        groups := groups[group := Marked(state, sequence, done)];
      }
      tickets := tickets + {Ticket(done, group, sequence)};
      result := Some(Ticket(done, group, sequence));
    }

    /** What others mark while a send is under way. */
    method Others() returns (ghost steps: seq<Event>)
      requires Valid()
      modifies this`turn, this`groups, this`closed, this`nextChan, this`tickets
      ensures Valid() && Reached(old(Abstract()), steps, Abstract()) && AckedAs(old(Abstract()), {}, Abstract())
    {
      hide Inv, Runs, After, Step, Enabled;
      steps := [];
      ghost var start := Abstract();
      NoSteps(start);
      if turn < |script| {
        var marks := script[turn];
        for i := 0 to |marks|
          invariant Valid() && Reached(start, steps, Abstract()) && AckedAs(start, {}, Abstract())
        {
          ghost var before := Abstract();
          var result := MarkDirty(marks[i].group, marks[i].sequence);
          if result.Some? {
            MarkEnabled(before, marks[i].group, marks[i].sequence);
            OneMore(start, steps, before, Mark(marks[i].group, marks[i].sequence));
            steps := steps + [Mark(marks[i].group, marks[i].sequence)];
            MarkAcksNothing(before, marks[i].group, marks[i].sequence);
          }
        }
      }
      turn := turn + 1;
    }

    /** flush, after a frame was accepted: raise Acked, close the waiters it covers and forget them. */
    method Acknowledge(group: Group, sequence: nat)
      requires Valid() && Frame(group, sequence) in home.log
      modifies this`groups, this`closed
      ensures Valid() && Abstract() == Step(old(Abstract()), Ack(group, sequence))
    {
      hide Inv, Due, Later, DueIn, LaterIn;
      ghost var before := Abstract();
      StepKeepsInv(before, Ack(group, sequence));
      SentIsKnown(before, Frame(group, sequence));
      var state := groups[group];
      if sequence > state.acked {
        var pending := state.waiters.Keys;
        var waiters := state.waiters;
        NothingDue(state, sequence);
        while pending != {}
          invariant pending <= state.waiters.Keys && groups == before.groups
          invariant closed == before.closed + DueIn(state, sequence, state.waiters.Keys - pending)
          invariant waiters == LaterIn(state, sequence, state.waiters.Keys - pending)
          decreases pending
        {
          var k :| k in pending;
          NextDue(state, sequence, pending, k);
          if k <= sequence {
            ghost var base := closed;
            NoneClosed(before, group, sequence, pending, k);
            for i := 0 to |state.waiters[k]|
              invariant groups == before.groups && closed == base + (set c | c in state.waiters[k][..i])
            {
              assert state.waiters[k][i] !in state.waiters[k][..i];
              assert state.waiters[k][..i + 1] == state.waiters[k][..i] + [state.waiters[k][i]];
              CloseChan(state.waiters[k][i]);
            }
            assert state.waiters[k][..|state.waiters[k]|] == state.waiters[k];
            waiters := waiters - {k};
          }
          pending := pending - {k};
        }
        AllDue(state, sequence);
        assert state.waiters.Keys - {} == state.waiters.Keys;
        groups := groups[group := ReleaseState(state.latest, sequence, waiters)];
      }
    }

    /** One frame: acknowledged if Home accepts it, and otherwise nothing happens. */
    method SendOne(group: Group, sequence: nat) returns (accepted: bool, ghost steps: seq<Event>)
      requires Valid() && Enabled(Abstract(), Send(group, sequence))
      modifies this`groups, this`closed, home
      ensures Valid() && Reached(old(Abstract()), steps, Abstract())
      ensures home.tried == old(home.tried) + [Frame(group, sequence)]
      ensures accepted <==> Accepts(home.answers, |old(home.tried)|)
      ensures home.log == if accepted then old(home.log) + {Frame(group, sequence)} else old(home.log)
      ensures Abstract() == if accepted then Step(Step(old(Abstract()), Send(group, sequence)), Ack(group, sequence))
                            else old(Abstract())
    {
      hide Inv, Runs, After, Step, Enabled, Reached, Accepts;
      ghost var before := Abstract();
      NoSteps(before);
      steps := [];
      accepted := home.Send(Frame(group, sequence));
      if accepted {
        OneMore(before, [], before, Send(group, sequence));
        StepKeepsInv(before, Send(group, sequence));
        SendMeans(before, group, sequence);
        ghost var framed := Abstract();
        Acknowledge(group, sequence);
        steps := [] + [Send(group, sequence)];
        OneMore(before, steps, framed, Ack(group, sequence));
        steps := steps + [Ack(group, sequence)];
      }
    }

    /** flush: send the latest sequence of every group that was behind when it started, once each, and acknowledge each
        frame Home accepts, whatever becomes of the others.  Marks made meanwhile are left for the next flush. */
    method Flush() returns (failed: bool, ghost took: set<Group>, ghost steps: seq<Event>)
      requires Valid()
      modifies this`turn, this`groups, this`closed, this`nextChan, this`tickets, home
      ensures Valid() && Reached(old(Abstract()), steps, Abstract())
      ensures !hasSender ==> !failed && took == {} && Abstract() == old(Abstract()) && home.tried == old(home.tried)
      ensures hasSender ==> TriedOnce(old(Abstract()), Behind(old(Abstract())), old(home.tried), home.tried)
      ensures hasSender ==> TookAccepted(home.answers, Behind(old(Abstract())), |old(home.tried)|, home.tried, took)
      ensures hasSender ==> (failed <==> exists i :: |old(home.tried)| <= i < |home.tried| && !Accepts(home.answers, i))
      ensures AckedAs(old(Abstract()), took, Abstract())
      ensures hasSender && !failed ==> CaughtUp(old(Abstract()), old(groups).Keys, Abstract())
      ensures forall t :: t in tickets && t.chan in closed ==> Covered(home.log, t)
    {
      hide Inv, Runs, After, Step, Enabled, Reached, Grown, AckedAs, TriedOnce, TookAccepted, Accepts, Behind, Covered, Flushing;
      failed, took, steps := false, {}, [];
      ghost var start, was := Abstract(), home.tried;
      NoSteps(start);
      ClosedAreCovered(start);
      NothingFlushed(start, home.answers, was);
      if !hasSender {
        return;
      }
      var pending := map g | g in groups && groups[g].latest > groups[g].acked :: groups[g].latest;
      PendingIsBehind(start, pending.Keys);
      var rest := pending.Keys;
      while rest != {}
        invariant Valid() && Reached(start, steps, Abstract()) && rest <= pending.Keys == Behind(start)
        invariant Flushing(home.answers, start, Behind(start) - rest, was, home.tried, took, failed, Abstract())
        decreases rest
      {
        var group :| group in rest;
        ghost var before, tried := Abstract(), home.tried;
        ghost var marks := Others();
        ReachedMore(start, steps, before, marks, Abstract());
        steps := steps + marks;
        ReachedGrows(start, steps, Abstract());
        ghost var mid := Abstract();
        BehindMeans(start, group);
        SendEnabled(start, mid, group);
        var accepted;
        ghost var own;
        accepted, own := SendOne(group, pending[group]);
        ReachedMore(start, steps, mid, own, Abstract());
        steps := steps + own;
        FlushingMore(home.answers, start, Behind(start) - rest, was, tried, took, failed, before, mid, group);
        assert Behind(start) - (rest - {group}) == Behind(start) - rest + {group};
        rest := rest - {group};
        if accepted {
          took := took + {group};
        } else {
          failed := true;
        }
      }
      assert Behind(start) - {} == Behind(start);
      ClosedAreCovered(Abstract());
      AllCaughtUp(home.answers, start, was, home.tried, took, failed, Abstract());
    }

    /** idle */
    method IsIdle() returns (idle: bool)
      ensures idle <==> Idle(Abstract())
    {
      var rest := groups.Keys;
      while rest != {}
        invariant rest <= groups.Keys && forall g :: g in groups && g !in rest ==> groups[g].latest <= groups[g].acked
        decreases rest
      {
        var g :| g in rest;
        if groups[g].latest > groups[g].acked {
          return false;
        }
        rest := rest - {g};
      }
      idle := true;
    }
  }

  /** These groups are acknowledged up to what was their latest sequence at the start. */
  ghost predicate CaughtUp(start: State, done: set<Group>, now: State) {
    forall g :: g in done && g in start.groups ==> StateOf(now, g).acked >= start.groups[g].latest
  }

  /** The groups that have something to send. */
  function Behind(s: State): set<Group> {
    set g | g in s.groups && s.groups[g].latest > s.groups[g].acked
  }

  /** Each of these groups was sent once, with its latest sequence at the start. */
  ghost predicate TriedOnce(start: State, done: set<Group>, was: seq<Frame>, tried: seq<Frame>) {
    && was <= tried && |tried| == |was| + |done|
    && (forall i :: |was| <= i < |tried| ==> tried[i].group in done && Latest(start, tried[i]))
    && forall g :: g in done ==> exists i :: |was| <= i < |tried| && tried[i].group == g
  }

  predicate Latest(s: State, f: Frame) {
    f.group in s.groups && f.sequence == s.groups[f.group].latest
  }

  /** Of these groups exactly those are taken whose frame was accepted. */
  ghost predicate TookAccepted(answers: seq<bool>, done: set<Group>, from: nat, tried: seq<Frame>, took: set<Group>) {
    took <= done && forall i :: from <= i < |tried| ==> (Accepts(answers, i) <==> tried[i].group in took)
  }

  /** These groups are acknowledged up to their latest sequence at the start, and no other is any further. */
  ghost predicate AckedAs(start: State, took: set<Group>, now: State) {
    forall g :: StateOf(now, g).acked ==
      if g in took && g in start.groups then start.groups[g].latest else StateOf(start, g).acked
  }

  /** A frame of at least the ticket's sequence was accepted. */
  ghost predicate Covered(log: set<Frame>, t: Ticket) {
    exists f :: f in log && f.group == t.group && f.sequence >= t.sequence
  }

  lemma ClosedAreCovered(s: State)
    requires Inv(s)
    ensures forall t :: t in s.tickets && t.chan in s.closed ==> Covered(s.sent, t)
  {
    forall t | t in s.tickets && t.chan in s.closed ensures Covered(s.sent, t) {
      assert TicketOk(s, t) && GroupOk(s, t.group, s.groups[t.group]);
      assert Frame(t.group, s.groups[t.group].acked) in s.sent;
    }
  }

  lemma MarkAcksNothing(s: State, g: Group, n: nat)
    requires n > 0
    ensures AckedAs(s, {}, Step(s, Mark(g, n)))
  {
  }

  lemma AckedMore(start: State, took: set<Group>, mid: State, now: State)
    requires AckedAs(start, took, mid) && AckedAs(mid, {}, now)
    ensures AckedAs(start, took, now)
  {
  }

  lemma PendingIsBehind(s: State, pending: set<Group>)
    requires pending == set g | g in s.groups && s.groups[g].latest > s.groups[g].acked
    ensures pending == Behind(s)
  {
  }

  lemma BehindMeans(s: State, g: Group)
    requires g in Behind(s)
    ensures g in s.groups && s.groups[g].latest > s.groups[g].acked
  {
  }

  /** How far a flush has come. */
  ghost predicate Flushing(answers: seq<bool>, start: State, done: set<Group>, was: seq<Frame>, tried: seq<Frame>,
                           took: set<Group>, failed: bool, now: State)
  {
    && TriedOnce(start, done, was, tried) && TookAccepted(answers, done, |was|, tried, took) && AckedAs(start, took, now)
    && (failed <==> exists i :: |was| <= i < |tried| && !Accepts(answers, i))
  }

  lemma NothingFlushed(start: State, answers: seq<bool>, was: seq<Frame>)
    ensures Flushing(answers, start, Behind(start) - Behind(start), was, was, {}, false, start)
    ensures AckedAs(start, {}, start)
  {
    hide Accepts;
    assert Behind(start) - Behind(start) == {};
  }

  /** One round: others have marked something, and one more group was sent. */
  lemma FlushingMore(answers: seq<bool>, start: State, done: set<Group>, was: seq<Frame>, tried: seq<Frame>,
                     took: set<Group>, failed: bool, before: State, mid: State, g: Group)
    requires Flushing(answers, start, done, was, tried, took, failed, before) && AckedAs(before, {}, mid)
    requires g !in done && g in Behind(start)
    ensures var n := start.groups[g].latest;
            var more := tried + [Frame(g, n)];
            if Accepts(answers, |tried|)
            then Flushing(answers, start, done + {g}, was, more, took + {g}, failed, Step(Step(mid, Send(g, n)), Ack(g, n)))
            else Flushing(answers, start, done + {g}, was, more, took, true, mid)
  {
    hide Accepts, TriedOnce, TookAccepted, AckedAs, Step;
    BehindMeans(start, g);
    AckedMore(start, took, before, mid);
    OneMoreTried(start, done, was, tried, g);
    OneMoreTook(answers, start, done, was, tried, took, g);
    RefusedMore(answers, |was|, tried, Frame(g, start.groups[g].latest));
    TookOnlyDone(answers, done, |was|, tried, took);
    TriedGrows(start, done, was, tried);
    if Accepts(answers, |tried|) {
      AckAcks(start, took, mid, g);
    }
  }

  lemma TriedGrows(start: State, done: set<Group>, was: seq<Frame>, tried: seq<Frame>)
    requires TriedOnce(start, done, was, tried)
    ensures |was| <= |tried|
  {
  }

  lemma TookOnlyDone(answers: seq<bool>, done: set<Group>, from: nat, tried: seq<Frame>, took: set<Group>)
    requires TookAccepted(answers, done, from, tried, took)
    ensures took <= done
  {
  }

  lemma RefusedMore(answers: seq<bool>, from: nat, tried: seq<Frame>, f: Frame)
    ensures from <= |tried| ==>
              ((exists i :: from <= i < |tried + [f]| && !Accepts(answers, i)) <==>
               (exists i :: from <= i < |tried| && !Accepts(answers, i)) || !Accepts(answers, |tried|))
  {
    hide Accepts;
  }

  lemma OneMoreTried(start: State, done: set<Group>, was: seq<Frame>, tried: seq<Frame>, g: Group)
    requires TriedOnce(start, done, was, tried) && g !in done && g in start.groups
    ensures TriedOnce(start, done + {g}, was, tried + [Frame(g, start.groups[g].latest)])
  {
    var more := tried + [Frame(g, start.groups[g].latest)];
    forall h | h in done + {g} ensures exists i :: |was| <= i < |more| && more[i].group == h {
      if h in done {
        var i :| |was| <= i < |tried| && tried[i].group == h;
        assert more[i].group == h;
      } else {
        assert more[|tried|].group == h;
      }
    }
  }

  lemma OneMoreTook(answers: seq<bool>, start: State, done: set<Group>, was: seq<Frame>, tried: seq<Frame>,
                    took: set<Group>, g: Group)
    requires TriedOnce(start, done, was, tried) && TookAccepted(answers, done, |was|, tried, took)
    requires g !in done && g in start.groups
    ensures var more := tried + [Frame(g, start.groups[g].latest)];
            TookAccepted(answers, done + {g}, |was|, more, if Accepts(answers, |tried|) then took + {g} else took)
  {
    hide Accepts;
  }

  /** Every group that was behind and whose frame was accepted has caught up; if none was refused, all have. */
  lemma AllCaughtUp(answers: seq<bool>, start: State, was: seq<Frame>, tried: seq<Frame>, took: set<Group>, failed: bool, now: State)
    requires Flushing(answers, start, Behind(start), was, tried, took, failed, now)
    ensures TriedOnce(start, Behind(start), was, tried) && TookAccepted(answers, Behind(start), |was|, tried, took)
    ensures AckedAs(start, took, now) && (failed <==> exists i :: |was| <= i < |tried| && !Accepts(answers, i))
    ensures !failed ==> CaughtUp(start, start.groups.Keys, now)
  {
    hide Accepts;
    if !failed {
      forall g | g in start.groups ensures StateOf(now, g).acked >= start.groups[g].latest {
        if g in Behind(start) {
          var i :| |was| <= i < |tried| && tried[i].group == g;
          assert Accepts(answers, i);
        }
      }
    }
  }

  lemma SendEnabled(start: State, now: State, g: Group)
    requires Grown(start, now) && g in start.groups && start.groups[g].latest > 0
    ensures Enabled(now, Send(g, start.groups[g].latest))
  {
    assert StateOf(start, g).latest <= StateOf(now, g).latest;
  }

  lemma SendMeans(s: State, g: Group, n: nat)
    ensures Step(s, Send(g, n)) == s.(sent := s.sent + {Frame(g, n)})
    ensures Enabled(Step(s, Send(g, n)), Ack(g, n))
  {
  }

  lemma AckAcks(start: State, took: set<Group>, s: State, g: Group)
    requires AckedAs(start, took, s) && g !in took && g in start.groups && start.groups[g].latest > start.groups[g].acked
    ensures var n := start.groups[g].latest;
            AckedAs(start, took + {g}, Step(Step(s, Send(g, n)), Ack(g, n)))
  {
  }

  lemma ReachedGrows(from: State, steps: seq<Event>, to: State)
    requires Reached(from, steps, to) && Inv(from)
    ensures Grown(from, to)
  {
    hide Inv, Grown;
    RunKeepsInv(from, steps);
  }

  lemma ReachedMore(from: State, front: seq<Event>, mid: State, back: seq<Event>, to: State)
    requires Reached(from, front, mid) && Reached(mid, back, to)
    ensures Reached(from, front + back, to)
  {
    RunAppend(from, front, back);
  }

  /** A flush that did not fail while no one marked anything leaves the flusher idle. */
  lemma FlushedIsIdle(start: State, now: State)
    requires CaughtUp(start, start.groups.Keys, now) && now.groups.Keys == start.groups.Keys
    requires forall g :: g in start.groups ==> now.groups[g].latest == start.groups[g].latest
    ensures Idle(now)
  {
    forall g | g in now.groups ensures now.groups[g].latest <= now.groups[g].acked {
      assert StateOf(now, g).acked >= start.groups[g].latest;
    }
  }

  // ----- pacing -----

  /** The delays in nanoseconds; timings() makes sure that the interval is positive and at most the backoff limit. */
  datatype Timings = Timings(flushInterval: nat, maxBackoff: nat)

  /** The part of the credential concurrency configuration that matters here, and whether each was written out. */
  datatype Configured = Configured(flushInterval: int, maxBackoff: int, intervalPresent: bool, backoffPresent: bool)

  const DEFAULT_FLUSH_INTERVAL: nat := 250_000_000
  const DEFAULT_MAX_BACKOFF: nat := 2_000_000_000

  /** WithDefaults: a zero that was not written out is replaced. */
  function WithDefaults(c: Configured): Configured {
    c.(flushInterval := if !c.intervalPresent && c.flushInterval == 0 then DEFAULT_FLUSH_INTERVAL else c.flushInterval,
       maxBackoff := if !c.backoffPresent && c.maxBackoff == 0 then DEFAULT_MAX_BACKOFF else c.maxBackoff)
  }

  /** timings(): what the provider says, with defaults for what it leaves out, or else the flusher's own fields; the
      default for an interval that is not positive.  The limit is the least one not below the one configured and the
      interval. */
  function Sane(own: Configured, provided: Option<Configured>): (t: Timings)
    ensures var c := if provided.Some? then provided.value else own;
            var leftOut := provided.Some? && !c.intervalPresent && c.flushInterval == 0;
            var noLimit := provided.Some? && !c.backoffPresent && c.maxBackoff == 0;
            && (t.flushInterval == c.flushInterval || t.flushInterval == DEFAULT_FLUSH_INTERVAL)
            && (t.flushInterval == c.flushInterval <==> c.flushInterval > 0)
            && (leftOut ==> t.flushInterval == DEFAULT_FLUSH_INTERVAL)
            && t.flushInterval <= t.maxBackoff
            && (!noLimit ==> c.maxBackoff <= t.maxBackoff && (t.maxBackoff == t.flushInterval || t.maxBackoff == c.maxBackoff))
            && (noLimit ==> DEFAULT_MAX_BACKOFF <= t.maxBackoff
                            && (t.maxBackoff == t.flushInterval || t.maxBackoff == DEFAULT_MAX_BACKOFF))
    ensures provided == Some(Configured(0, 0, false, false)) ==> t == Timings(DEFAULT_FLUSH_INTERVAL, DEFAULT_MAX_BACKOFF)
  {
    var source := if provided.Some? then WithDefaults(provided.value) else own;
    var interval := if source.flushInterval <= 0 then DEFAULT_FLUSH_INTERVAL else source.flushInterval;
    Timings(interval, if source.maxBackoff < interval then interval else source.maxBackoff)
  }

  method NextDelay(t: Timings, delay: nat, failed: bool) returns (next: nat, backingOff: bool)
    ensures next == DelayAfter(t, delay, failed) && backingOff == failed
  {
    if !failed {
      return t.flushInterval, false;
    }
    next := delay * 2;
    if next < t.flushInterval {
      next := t.flushInterval;
    }
    if next > t.maxBackoff {
      next := t.maxBackoff;
    }
    backingOff := true;
  }

  function DelayAfter(t: Timings, delay: nat, failed: bool): nat {
    if !failed then t.flushInterval
    else
      var doubled := if delay * 2 < t.flushInterval then t.flushInterval else delay * 2;
      if doubled > t.maxBackoff then t.maxBackoff else doubled
  }

  function Failures(t: Timings, delay: nat, k: nat): nat {
    if k == 0 then delay else DelayAfter(t, Failures(t, delay, k - 1), true)
  }

  function Doubled(n: nat, k: nat): nat {
    if k == 0 then n else 2 * Doubled(n, k - 1)
  }

  /** After k failures in a row the delay is the flush interval doubled k times, up to the limit. */
  lemma {:induction false} BackoffIsExponential(t: Timings, k: nat)
    requires 0 < t.flushInterval <= t.maxBackoff
    ensures Failures(t, t.flushInterval, k) ==
            (if Doubled(t.flushInterval, k) > t.maxBackoff then t.maxBackoff else Doubled(t.flushInterval, k))
    ensures Failures(t, t.flushInterval, k) >= t.flushInterval && Doubled(t.flushInterval, k) >= t.flushInterval
  {
    if k > 0 {
      BackoffIsExponential(t, k - 1);
    }
  }

  ghost predicate Reached(from: State, steps: seq<Event>, to: State) {
    Runs(from, steps) && After(from, steps) == to
  }

  lemma NoSteps(s: State)
    ensures Reached(s, [], s)
  {
  }

  lemma OneMore(from: State, steps: seq<Event>, to: State, e: Event)
    requires Reached(from, steps, to) && Enabled(to, e)
    ensures Reached(from, steps + [e], Step(to, e))
  {
    RunMore(from, steps, e);
  }

  lemma FreshChan(s: State)
    requires Inv(s)
    ensures s.nextChan !in s.closed
  {
  }

  lemma MarkEnabled(s: State, g: Group, n: int)
    requires n > 0
    ensures Enabled(s, Mark(g, n))
  {
  }

  lemma SentIsKnown(s: State, f: Frame)
    requires Inv(s) && f in s.sent
    ensures f.group in s.groups
  {
  }

  /** The channels an acknowledgement closes among some of the waiting sequences, and what stays waiting. */
  function DueIn(r: ReleaseState, n: nat, keys: set<nat>): set<Chan> {
    set k, c | k in keys && k in r.waiters && k <= n && c in r.waiters[k] :: c
  }

  function LaterIn(r: ReleaseState, n: nat, keys: set<nat>): map<nat, seq<Chan>> {
    map k | k in r.waiters && (k !in keys || k > n) :: r.waiters[k]
  }

  lemma NothingDue(r: ReleaseState, n: nat)
    ensures DueIn(r, n, r.waiters.Keys - r.waiters.Keys) == {} && LaterIn(r, n, r.waiters.Keys - r.waiters.Keys) == r.waiters
  {
  }

  lemma AllDue(r: ReleaseState, n: nat)
    ensures DueIn(r, n, r.waiters.Keys) == Due(r, n) && LaterIn(r, n, r.waiters.Keys) == Later(r, n)
  {
  }

  lemma NextDue(r: ReleaseState, n: nat, pending: set<nat>, k: nat)
    requires pending <= r.waiters.Keys && k in pending
    ensures var seen := r.waiters.Keys - pending;
            && r.waiters.Keys - (pending - {k}) == seen + {k}
            && DueIn(r, n, seen + {k}) == DueIn(r, n, seen) + (if k <= n then set c | c in r.waiters[k] else {})
            && LaterIn(r, n, seen + {k}) == (if k <= n then LaterIn(r, n, seen) - {k} else LaterIn(r, n, seen))
  {
    var seen := r.waiters.Keys - pending;
    assert LaterIn(r, n, seen + {k}).Keys == (if k <= n then LaterIn(r, n, seen).Keys - {k} else LaterIn(r, n, seen).Keys);
  }

  /** The channels waiting for one sequence are open, distinct, and wait for no other sequence. */
  lemma NoneClosed(s: State, g: Group, n: nat, pending: set<nat>, k: nat)
    requires Inv(s) && g in s.groups && pending <= s.groups[g].waiters.Keys && k in pending
    ensures var r := s.groups[g];
            && NoRepeats(r.waiters[k])
            && forall c :: c in r.waiters[k] ==> c !in s.closed && c !in DueIn(r, n, r.waiters.Keys - pending)
  {
    var r := s.groups[g];
    assert GroupOk(s, g, r);
    forall c | c in r.waiters[k] ensures c !in s.closed && c !in DueIn(r, n, r.waiters.Keys - pending) {
      assert Ticket(c, g, k) in s.tickets;
      forall j | j in r.waiters && c in r.waiters[j] ensures j == k {
        assert Ticket(c, g, j) in s.tickets;
      }
    }
  }
}
