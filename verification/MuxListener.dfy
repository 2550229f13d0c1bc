/** The listener's methods, cut where other goroutines may run in between: each piece is one step of the machine. */
module MuxListener {
  import opened MuxMachine

  /** What a select over the close channel and another channel does. */
  datatype Chosen = CloseSeen | Proceeded(conn: Conn) | Blocked

  class MuxListener {
    const capacity: nat
    var connCh: seq<Conn>
    var closed: bool        // and, with it, closeCh
    var inFlight: nat
    ghost var phase: Phase
    var sending: multiset<Conn>     // the local state of the Put and Accept calls that are running
    var leaving: nat
    var held: multiset<Conn>
    ghost var delivered: multiset<Conn>
    ghost var shut: multiset<Conn>
    ghost var refused: multiset<Conn>
    ghost var sent: seq<Conn>
    ghost var taken: seq<Conn>

    ghost function Abstract(): State
      reads this
    {
      State(capacity, phase, connCh, sending, leaving, held, delivered, shut, refused, sent, taken)
    }

    ghost predicate Valid()
      reads this
    {
      Inv(Abstract()) && (closed <==> Closed(Abstract())) && inFlight == |sending| + leaving
    }

    /** newMuxListener */
    constructor (buffer: int)
      ensures Valid() && Abstract() == Fresh(buffer)
    {
      capacity := if buffer <= 0 then 1 else buffer;
      connCh, closed, inFlight := [], false, 0;
      phase, sending, leaving, held, delivered := NotClosing, multiset{}, 0, multiset{}, multiset{};
      shut, refused, sent, taken := multiset{}, multiset{}, [], [];
    }

    /** Put, under the mutex. */
    method PutEnter(conn: Conn) returns (ok: bool)
      requires Valid()
      modifies this`inFlight, this`sending, this`refused
      ensures Valid() && Abstract() == Step(old(Abstract()), PutCheck(conn)) && (ok <==> !Closed(old(Abstract())))
    {
      hide Inv;
      StepKeepsInv(Abstract(), PutCheck(conn));
      if closed {
        refused := refused + multiset{conn};
        return false;
      }
      inFlight := inFlight + 1;
      sending := sending + multiset{conn};
      ok := true;
    }

    /** The arm of Put's select that saw the close channel. */
    method PutRefuse(conn: Conn)
      requires Valid() && conn in sending && closed
      modifies this`sending, this`leaving, this`refused
      ensures Valid() && Abstract() == Step(old(Abstract()), PutAbort(conn))
    {
      hide Inv;
      StepKeepsInv(Abstract(), PutAbort(conn));
      sending, leaving, refused := sending - multiset{conn}, leaving + 1, refused + multiset{conn};
    }

    /** The arm that sent. */
    method PutQueue(conn: Conn)
      requires Valid() && conn in sending && |connCh| < capacity
      modifies this`connCh, this`sending, this`leaving, this`sent
      ensures Valid() && Abstract() == Step(old(Abstract()), PutSend(conn))
    {
      hide Inv;
      StepKeepsInv(Abstract(), PutSend(conn));
      sending, leaving := sending - multiset{conn}, leaving + 1;
      connCh, sent := connCh + [conn], sent + [conn];
    }

    /** Put's select.  When both channels are ready the runtime picks either. */
    method PutSelect(conn: Conn, closeFirst: bool) returns (chosen: Chosen)
      requires Valid() && conn in sending
      modifies this`connCh, this`sending, this`leaving, this`refused, this`sent
      ensures Valid()
      ensures match chosen
              case CloseSeen => Enabled(old(Abstract()), PutAbort(conn)) && Abstract() == Step(old(Abstract()), PutAbort(conn))
              case Proceeded(c) =>
                c == conn && Enabled(old(Abstract()), PutSend(conn)) && Abstract() == Step(old(Abstract()), PutSend(conn))
              case Blocked => !Enabled(old(Abstract()), PutAbort(conn)) && !Enabled(old(Abstract()), PutSend(conn))
                              && Abstract() == old(Abstract())
    {
      hide Inv, Step;
      var room := |connCh| < capacity;
      if closed && (closeFirst || !room) {
        PutRefuse(conn);
        chosen := CloseSeen;
      } else if room {
        PutQueue(conn);
        chosen := Proceeded(conn);
      } else {
        chosen := Blocked;
      }
    }

    /** Put's deferred inFlight.Done. */
    method PutLeave()
      requires Valid() && leaving > 0
      modifies this`inFlight, this`leaving
      ensures Valid() && Abstract() == Step(old(Abstract()), PutDone)
    {
      hide Inv;
      StepKeepsInv(Abstract(), PutDone);
      inFlight, leaving := inFlight - 1, leaving - 1;
    }

    /** Accept's first select. */
    method AcceptSelect(closeFirst: bool) returns (chosen: Chosen)
      requires Valid()
      modifies this`connCh, this`held, this`taken
      ensures Valid() && (old(connCh) != [] && !closeFirst ==> chosen.Proceeded?)
      ensures match chosen
              case CloseSeen => Closed(old(Abstract())) && Abstract() == old(Abstract())
              case Proceeded(c) => Enabled(old(Abstract()), AcceptTake) && Abstract() == Step(old(Abstract()), AcceptTake)
                                   && c == old(connCh)[0] && c in held
              case Blocked => !closed && connCh == [] && Abstract() == old(Abstract())
    {
      hide Inv;
      if closed && (closeFirst || |connCh| == 0) {
        chosen := CloseSeen;
      } else if |connCh| > 0 {
        StepKeepsInv(Abstract(), AcceptTake);
        chosen := Proceeded(connCh[0]);
        held, taken := held + multiset{connCh[0]}, taken + [connCh[0]];
        connCh := connCh[1..];
      } else {
        chosen := Blocked;
      }
    }

    /** Accept's second look at the close channel: the connection is returned, or closed and refused. */
    method AcceptDecide(conn: Conn) returns (returned: bool)
      requires Valid() && conn in held
      modifies this`held, this`delivered, this`shut
      ensures Valid() && Abstract() == Step(old(Abstract()), AcceptFinish(conn)) && (returned <==> !closed)
    {
      hide Inv;
      StepKeepsInv(Abstract(), AcceptFinish(conn));
      held := held - multiset{conn};
      if closed {
        shut := shut + multiset{conn};
        return false;
      }
      delivered := delivered + multiset{conn};
      returned := true;
    }

    /** Close, under the mutex: the first call only. */
    method CloseStart() returns (first: bool)
      requires Valid()
      modifies this`closed, this`phase
      ensures Valid() && (first <==> !old(closed)) && closed
      ensures Abstract() == if first then Step(old(Abstract()), CloseBegin) else old(Abstract())
    {
      hide Inv;
      first := !closed;
      if first {
        StepKeepsInv(Abstract(), CloseBegin);
        closed, phase := true, Waiting;
      }
    }

    /** One round of Close's draining loop. */
    method DrainNext() returns (more: bool)
      requires Valid() && phase.Draining?
      modifies this`connCh, this`phase, this`shut, this`taken
      ensures Valid() && (more <==> old(connCh) != [])
      ensures var e := if more then DrainOne else DrainEnd;
              Enabled(old(Abstract()), e) && Abstract() == Step(old(Abstract()), e)
    {
      hide Inv;
      more := |connCh| > 0;
      StepKeepsInv(Abstract(), if more then DrainOne else DrainEnd);
      if more {
        shut, taken := shut + multiset{connCh[0]}, taken + [connCh[0]];
        connCh := connCh[1..];
      } else {
        phase := Returned;
      }
    }

    /** One step of a Put or an Accept of some other goroutine, if it may take it now. */
    method OtherStep(e: Event) returns (ghost ran: seq<Event>)
      requires Valid() && !OfClose(e)
      modifies this`connCh, this`inFlight, this`sending, this`leaving, this`held
      modifies this`delivered, this`shut, this`refused, this`sent, this`taken
      ensures Valid() && (ran == [] || ran == [e])
      ensures Runs(old(Abstract()), ran) && Abstract() == After(old(Abstract()), ran)
    {
      hide Inv, Step, Runs, After;
      ghost var start := Abstract();
      ran := [];
      RunNone(start);
      if Enabled(start, e) {
        RunOne(start, e);
        ran := [e];
      }
      match e
      case PutCheck(conn) => var _ := PutEnter(conn);
      case PutSend(conn) =>
        if conn in sending && |connCh| < capacity {
          PutQueue(conn);
        }
      case PutAbort(conn) =>
        if conn in sending && closed {
          PutRefuse(conn);
        }
      case PutDone =>
        if leaving > 0 {
          PutLeave();
        }
      case AcceptTake =>
        if |connCh| > 0 {
          var _ := AcceptSelect(false);
        }
      case AcceptFinish(conn) =>
        if conn in held {
          var _ := AcceptDecide(conn);
        }
    }

    /** What others do in between. */
    method Others(events: seq<Event>) returns (ghost ran: seq<Event>)
      requires Valid()
      modifies this`connCh, this`inFlight, this`sending, this`leaving, this`held
      modifies this`delivered, this`shut, this`refused, this`sent, this`taken
      ensures Valid() && Runs(old(Abstract()), ran) && Abstract() == After(old(Abstract()), ran)
      ensures forall e :: e in ran ==> !OfClose(e)
    {
      hide Inv, Step, Runs, After;
      ghost var start := Abstract();
      ran := [];
      RunNone(start);
      for i := 0 to |events|
        invariant Valid() && Runs(start, ran) && Abstract() == After(start, ran)
        invariant forall e :: e in ran ==> !OfClose(e)
      {
        if !OfClose(events[i]) {
          ghost var more := OtherStep(events[i]);
          RunConcat(start, ran, more);
          ran := ran + more;
        }
      }
    }

    /** Close, once no Put is in flight: close everything that is queued, while Accepts and refused Puts of others run
        before each round.  What was queued is closed, by Close or by the Accept that took it. */
    method CloseDrain(script: seq<seq<Event>>) returns (ghost steps: seq<Event>)
      requires Valid() && phase.Waiting? && inFlight == 0
      modifies this
      ensures Valid() && phase.Returned? && connCh == [] && sent == old(sent) && delivered == old(delivered)
      ensures held + shut == old(held) + old(shut) + multiset(old(connCh)) && old(shut) <= shut
      ensures Runs(old(Abstract()), steps) && Abstract() == After(old(Abstract()), steps)
      ensures script == [] ==> held == old(held)
    {
      hide Inv, Runs, After, Step, Enabled;
      ghost var start := Abstract();
      BeforeDrain(start);
      StepKeepsInv(start, CloseWaited);
      phase := Draining;
      steps := [CloseWaited];
      RunOne(start, CloseWaited);
      var more, round := true, 0;
      while more
        invariant Valid() && Runs(start, steps) && Abstract() == After(start, steps)
        invariant if more then phase.Draining? else phase.Returned? && connCh == []
        invariant Gathered(start, Abstract()) && (script == [] ==> held == start.held)
        decreases more, |connCh|
      {
        ghost var before := Abstract();
        if round < |script| {
          ghost var ran := Others(script[round]);
          OthersWhileDraining(before, ran);
          RunConcat(start, steps, ran);
          steps := steps + ran;
        }
        round := round + 1;
        ghost var between := Abstract();
        more := DrainNext();
        DrainMeans(between, Abstract(), more);
        RunMore(start, steps, if more then DrainOne else DrainEnd);
        steps := steps + [if more then DrainOne else DrainEnd];
      }
    }
  }

  /** The steps of the one effective Close. */
  predicate OfClose(e: Event) {
    e.CloseBegin? || e.CloseWaited? || e.DrainOne? || e.DrainEnd?
  }

  /** Nothing put, nothing delivered, and whatever left the queue was closed or is held by an Accept that will. */
  ghost predicate Gathered(s: State, t: State) {
    && t.sent == s.sent && t.delivered == s.delivered && s.shut <= t.shut
    && t.held + t.shut + multiset(t.queue) == s.held + s.shut + multiset(s.queue)
  }

  lemma {:induction false} OthersWhileDraining(s: State, events: seq<Event>)
    requires Inv(s) && s.phase.Draining? && Runs(s, events) && forall e :: e in events ==> !OfClose(e)
    ensures var t := After(s, events); t.phase.Draining? && |t.queue| <= |s.queue| && Gathered(s, t)
    decreases |events|
  {
    if events != [] {
      hide Inv;
      StepKeepsInv(s, events[0]);
      OtherWhileDraining(s, events[0]);
      OthersWhileDraining(Step(s, events[0]), events[1..]);
    }
  }

  lemma OtherWhileDraining(s: State, e: Event)
    requires Inv(s) && s.phase.Draining? && Enabled(s, e) && !OfClose(e)
    ensures var t := Step(s, e); t.phase.Draining? && |t.queue| <= |s.queue| && Gathered(s, t)
  {
    if e.AcceptTake? {
      assert s.queue == [s.queue[0]] + s.queue[1..];
    }
  }

  lemma BeforeDrain(s: State)
    requires s.phase.Waiting? && s.sending == multiset{} && s.leaving == 0
    ensures Enabled(s, CloseWaited) && Step(s, CloseWaited) == s.(phase := Draining)
  {
  }

  lemma DrainMeans(s: State, t: State, more: bool)
    requires s.phase.Draining? && (more <==> s.queue != [])
    requires t == Step(s, if more then DrainOne else DrainEnd)
    ensures if more then t.phase.Draining? && |t.queue| < |s.queue| else t.phase.Returned? && t.queue == []
    ensures Gathered(s, t) && t.held == s.held
  {
    if more {
      assert s.queue == [s.queue[0]] + s.queue[1..];
    }
  }

  lemma RunNone(s: State)
    ensures Runs(s, []) && After(s, []) == s
  {
  }

  lemma RunOne(s: State, e: Event)
    requires Enabled(s, e)
    ensures Runs(s, [e]) && After(s, [e]) == Step(s, e)
  {
    assert [e][1..] == [];
    assert Runs(Step(s, e), []);
  }

  lemma RunMore(s: State, steps: seq<Event>, e: Event)
    requires Runs(s, steps) && Enabled(After(s, steps), e)
    ensures Runs(s, steps + [e]) && After(s, steps + [e]) == Step(After(s, steps), e)
  {
    RunOne(After(s, steps), e);
    RunConcat(s, steps, [e]);
  }
}
