/** The multiplexing listener as atomic steps: connections are put by one set of goroutines, accepted by another,
    and closing waits for the puts in flight before it drains the queue. */
module MuxMachine {

  type Conn = nat

  /** Where the one effective Close call stands. */
  datatype Phase = NotClosing | Waiting | Draining | Returned

  datatype State = State(
    capacity: nat,
    phase: Phase,
    queue: seq<Conn>,             // the channel's buffer
    sending: multiset<Conn>,      // Put calls past the closed check, before their select
    leaving: nat,                 // Put calls past their select, before inFlight.Done
    held: multiset<Conn>,         // received by an Accept that has not looked at closeCh again
    delivered: multiset<Conn>,    // returned by Accept
    shut: multiset<Conn>,         // closed by the listener
    refused: multiset<Conn>,      // Put returned net.ErrClosed
    sent: seq<Conn>,              // every connection whose Put returned nil, in order
    taken: seq<Conn>)             // every connection taken out of the queue, in order

  /** The flag and the close channel change together, under the mutex. */
  predicate Closed(s: State) {
    s.phase != NotClosing
  }

  datatype Event =
    | PutCheck(conn: Conn) | PutSend(conn: Conn) | PutAbort(conn: Conn) | PutDone
    | AcceptTake | AcceptFinish(conn: Conn)
    | CloseBegin | CloseWaited | DrainOne | DrainEnd

  predicate Enabled(s: State, e: Event) {
    match e
    case PutCheck(_) => true
    case PutSend(conn) => conn in s.sending && |s.queue| < s.capacity
    case PutAbort(conn) => conn in s.sending && Closed(s)
    case PutDone => s.leaving > 0
    case AcceptTake => s.queue != []
    case AcceptFinish(conn) => conn in s.held
    case CloseBegin => s.phase.NotClosing?
    case CloseWaited => s.phase.Waiting? && s.sending == multiset{} && s.leaving == 0
    case DrainOne => s.phase.Draining? && s.queue != []
    case DrainEnd => s.phase.Draining? && s.queue == []
  }

  function Step(s: State, e: Event): State
    requires Enabled(s, e)
  {
    match e
    case PutCheck(conn) =>
      if Closed(s) then s.(refused := s.refused + multiset{conn}) else s.(sending := s.sending + multiset{conn})
    case PutSend(conn) =>
      s.(sending := s.sending - multiset{conn}, leaving := s.leaving + 1, queue := s.queue + [conn], sent := s.sent + [conn])
    case PutAbort(conn) =>
      s.(sending := s.sending - multiset{conn}, leaving := s.leaving + 1, refused := s.refused + multiset{conn})
    case PutDone => s.(leaving := s.leaving - 1)
    case AcceptTake => s.(queue := s.queue[1..], held := s.held + multiset{s.queue[0]}, taken := s.taken + [s.queue[0]])
    case AcceptFinish(conn) =>
      if Closed(s) then s.(held := s.held - multiset{conn}, shut := s.shut + multiset{conn})
      else s.(held := s.held - multiset{conn}, delivered := s.delivered + multiset{conn})
    case CloseBegin => s.(phase := Waiting)
    case CloseWaited => s.(phase := Draining)
    case DrainOne => s.(queue := s.queue[1..], shut := s.shut + multiset{s.queue[0]}, taken := s.taken + [s.queue[0]])
    case DrainEnd => s.(phase := Returned)
  }

  /** newMuxListener */
  function Fresh(buffer: int): State {
    State(if buffer <= 0 then 1 else buffer, NotClosing, [], multiset{}, 0, multiset{}, multiset{}, multiset{}, multiset{}, [], [])
  }

  /** Connections leave the queue in the order they entered it, and each one taken is held, delivered or closed. */
  predicate Conserved(s: State) {
    s.sent == s.taken + s.queue && multiset(s.taken) == s.held + s.delivered + s.shut
  }

  predicate Inv(s: State) {
    && Conserved(s) && |s.queue| <= s.capacity && s.capacity > 0
    && (s.phase.Draining? || s.phase.Returned? ==> s.sending == multiset{} && s.leaving == 0)
    && (s.phase.Returned? ==> s.queue == [])
  }

  lemma FreshInv(buffer: int)
    ensures Inv(Fresh(buffer))
  {
  }

  /** Every step of every call keeps the invariant. */
  lemma StepKeepsInv(s: State, e: Event)
    requires Inv(s) && Enabled(s, e)
    ensures Inv(Step(s, e))
  {
    if e.AcceptTake? || e.DrainOne? {
      assert s.queue == [s.queue[0]] + s.queue[1..];
      assert s.sent == (s.taken + [s.queue[0]]) + s.queue[1..];
    } else if e.PutSend? {
      assert (s.taken + s.queue) + [e.conn] == s.taken + (s.queue + [e.conn]);
    }
  }

  // ----- whole runs -----

  predicate Runs(s: State, events: seq<Event>)
    decreases |events|
  {
    events == [] || (Enabled(s, events[0]) && Runs(Step(s, events[0]), events[1..]))
  }

  function After(s: State, events: seq<Event>): State
    requires Runs(s, events)
    decreases |events|
  {
    if events == [] then s else After(Step(s, events[0]), events[1..])
  }

  lemma {:induction false} RunKeepsInv(s: State, events: seq<Event>)
    requires Inv(s) && Runs(s, events)
    ensures Inv(After(s, events))
    decreases |events|
  {
    if events != [] {
      StepKeepsInv(s, events[0]);
      RunKeepsInv(Step(s, events[0]), events[1..]);
    }
  }

  lemma {:induction false} RunConcat(s: State, front: seq<Event>, back: seq<Event>)
    requires Runs(s, front) && Runs(After(s, front), back)
    ensures Runs(s, front + back) && After(s, front + back) == After(After(s, front), back)
    decreases |front|
  {
    if front == [] {
      assert front + back == back;
    } else {
      assert (front + back)[1..] == front[1..] + back;
      RunConcat(Step(s, front[0]), front[1..], back);
    }
  }

  lemma Counts(a: seq<Conn>, b: seq<Conn>)
    ensures multiset(a + b) == multiset(a) + multiset(b)
  {
  }

  /** In every interleaving, a connection whose Put returned nil (once) is in exactly one place. */
  lemma ExactlyOnePlace(buffer: int, events: seq<Event>, conn: Conn)
    requires Runs(Fresh(buffer), events) && multiset(After(Fresh(buffer), events).sent)[conn] == 1
    ensures var s := After(Fresh(buffer), events);
            multiset(s.queue)[conn] + s.held[conn] + s.delivered[conn] + s.shut[conn] == 1
  {
    FreshInv(buffer);
    RunKeepsInv(Fresh(buffer), events);
    var s := After(Fresh(buffer), events);
    Counts(s.taken, s.queue);
  }

  /** Once Close has returned the queue is empty, stays empty and takes nothing more; what Accept still holds it closes. */
  lemma {:induction false} EmptyForever(s: State, events: seq<Event>)
    requires Inv(s) && s.phase.Returned? && Runs(s, events)
    ensures var s' := After(s, events);
            && s'.phase.Returned? && s'.queue == [] && s'.sent == s.sent && s'.delivered == s.delivered
            && s'.held + s'.shut == s.held + s.shut && s.shut <= s'.shut
    decreases |events|
  {
    if events != [] {
      StepKeepsInv(s, events[0]);
      var next := Step(s, events[0]);
      assert next.held + next.shut == s.held + s.shut && s.shut <= next.shut;
      EmptyForever(next, events[1..]);
    }
  }

  /** After Close has returned and the last Accept has finished, nothing is leaked: every connection was delivered
      before the close or closed by the listener, exactly as often as it was put. */
  lemma NothingLeaked(s: State)
    requires Inv(s) && s.phase.Returned? && s.held == multiset{}
    ensures multiset(s.sent) == s.delivered + s.shut
  {
    assert s.sent == s.taken;
  }

  /** Nothing is delivered once Close has begun. */
  lemma {:induction false} NoDeliveryAfterClose(s: State, events: seq<Event>)
    requires Closed(s) && Runs(s, events)
    ensures Closed(After(s, events)) && After(s, events).delivered == s.delivered
    decreases |events|
  {
    if events != [] {
      NoDeliveryAfterClose(Step(s, events[0]), events[1..]);
    }
  }

  /** How much Close still has to wait for and to drain. */
  function Remaining(s: State): nat {
    3 * |s.sending| + 2 * s.leaving + |s.queue|
    + (match s.phase case NotClosing => 3 case Waiting => 2 case Draining => 1 case Returned => 0)
  }

  /** Close never waits in vain: until it returns, some step that brings it nearer is enabled. */
  lemma CloseProgresses(s: State) returns (e: Event)
    requires Inv(s) && Closed(s) && !s.phase.Returned?
    ensures Enabled(s, e) && Remaining(Step(s, e)) < Remaining(s)
  {
    if s.sending != multiset{} {
      var conn :| conn in s.sending;
      e := PutAbort(conn);
    } else if s.leaving > 0 {
      e := PutDone;
    } else if s.phase.Waiting? {
      e := CloseWaited;
    } else if s.queue != [] {
      e := DrainOne;
    } else {
      e := DrainEnd;
    }
  }

  /** And no step of anyone moves it further away. */
  lemma StepsNeverDelayClose(s: State, e: Event)
    requires Inv(s) && Closed(s) && Enabled(s, e)
    ensures Remaining(Step(s, e)) <= Remaining(s)
  {
  }
}
