/** Cumulative release acknowledgements as atomic steps: marking, sending and acknowledging interleave freely. */
module ReleaseMachine {

  datatype Group = Group(credential: string, model: string)

  type Chan = nat

  /** A caller holds a ticket; its channel is closed when Home acknowledged the sequence. */
  datatype Ticket = Ticket(chan: Chan, group: Group, sequence: nat)

  datatype Frame = Frame(group: Group, sequence: nat)

  datatype ReleaseState = ReleaseState(latest: nat, acked: nat, waiters: map<nat, seq<Chan>>)

  const NO_STATE := ReleaseState(0, 0, map[])

  datatype State = State(
    groups: map<Group, ReleaseState>,
    closed: set<Chan>,
    nextChan: Chan,
    tickets: set<Ticket>,     // every ticket handed out
    sent: set<Frame>)         // every frame Home accepted

  const FRESH := State(map[], {}, 0, {}, {})

  /** A mark, a frame that Home accepted, or the acknowledgement of such a frame. */
  datatype Event = Mark(group: Group, sequence: nat) | Send(group: Group, sequence: nat) | Ack(group: Group, sequence: nat)

  function StateOf(s: State, g: Group): ReleaseState {
    if g in s.groups then s.groups[g] else NO_STATE
  }

  /** A sequence up to the latest may be sent (a flush sends what was the latest when it started), and only a frame
      that was accepted is acknowledged. */
  predicate Enabled(s: State, e: Event) {
    match e
    case Mark(_, n) => n > 0
    case Send(g, n) => g in s.groups && 0 < n <= s.groups[g].latest
    case Ack(g, n) => Frame(g, n) in s.sent
  }

  function WaitersAt(r: ReleaseState, n: nat): seq<Chan> {
    if n in r.waiters then r.waiters[n] else []
  }

  function Marked(r: ReleaseState, n: nat, chan: Chan): ReleaseState {
    ReleaseState(if n > r.latest then n else r.latest, r.acked, r.waiters[n := WaitersAt(r, n) + [chan]])
  }

  /** The channels that an acknowledgement of n closes. */
  function Due(r: ReleaseState, n: nat): set<Chan> {
    set k, c | k in r.waiters && k <= n && c in r.waiters[k] :: c
  }

  function Later(r: ReleaseState, n: nat): map<nat, seq<Chan>> {
    map k | k in r.waiters && k > n :: r.waiters[k]
  }

  function Step(s: State, e: Event): State {
    match e
    case Mark(g, n) =>
      var r := StateOf(s, g);
      var t := s.(nextChan := s.nextChan + 1, tickets := s.tickets + {Ticket(s.nextChan, g, n)});
      if n <= r.acked then t.(closed := t.closed + {s.nextChan}) else t.(groups := t.groups[g := Marked(r, n, s.nextChan)])
    case Send(g, n) => s.(sent := s.sent + {Frame(g, n)})
    case Ack(g, n) =>
      var r := StateOf(s, g);
      if n <= r.acked then s
      else s.(closed := s.closed + Due(r, n), groups := s.groups[g := ReleaseState(r.latest, n, Later(r, n))])
  }

  // ----- the invariant -----

  predicate NoRepeats(chans: seq<Chan>) {
    forall i, j :: 0 <= i < j < |chans| ==> chans[i] != chans[j]
  }

  /** One group: acknowledged at most what was marked, and only what was sent; waiting exactly for what is beyond. */
  ghost predicate GroupOk(s: State, g: Group, r: ReleaseState) {
    && r.acked <= r.latest && (r.acked > 0 ==> Frame(g, r.acked) in s.sent)
    && (forall k :: k in r.waiters ==> r.acked < k <= r.latest && NoRepeats(r.waiters[k]))
    && (forall k, c :: k in r.waiters && c in r.waiters[k] ==> Ticket(c, g, k) in s.tickets && c !in s.closed)
  }

  /** One ticket: its channel is closed exactly when its sequence is acknowledged, and waits otherwise. */
  ghost predicate TicketOk(s: State, t: Ticket) {
    && t.chan < s.nextChan && 0 < t.sequence && t.group in s.groups
    && var r := s.groups[t.group];
    && t.sequence <= r.latest && (t.chan in s.closed <==> t.sequence <= r.acked)
    && (t.chan !in s.closed ==> t.sequence in r.waiters && t.chan in r.waiters[t.sequence])
  }

  ghost predicate Inv(s: State) {
    && (forall g :: g in s.groups ==> GroupOk(s, g, s.groups[g]))
    && (forall t :: t in s.tickets ==> TicketOk(s, t))
    && (forall t, u :: t in s.tickets && u in s.tickets && t.chan == u.chan ==> t == u)
    && (forall f :: f in s.sent ==> f.group in s.groups && 0 < f.sequence <= s.groups[f.group].latest)
    && (forall c :: c in s.closed ==> c < s.nextChan)
  }

  lemma FreshInv()
    ensures Inv(FRESH)
  {
  }

  lemma MarkKeepsOther(s: State, g: Group, n: nat, h: Group)
    requires Inv(s) && n > 0 && h in s.groups && h != g
    ensures var t := Step(s, Mark(g, n)); h in t.groups && t.groups[h] == s.groups[h] && GroupOk(t, h, t.groups[h])
  {
    assert GroupOk(s, h, s.groups[h]);
  }

  lemma MarkKeepsGroup(s: State, g: Group, n: nat)
    requires Inv(s) && n > 0
    ensures var t := Step(s, Mark(g, n)); g in t.groups && GroupOk(t, g, t.groups[g])
  {
    var r := StateOf(s, g);
    var t := Step(s, Mark(g, n));
    assert g in s.groups ==> GroupOk(s, g, r);
    if n > r.acked {
      var old_, new_ := WaitersAt(r, n), WaitersAt(r, n) + [s.nextChan];
      forall c | c in old_ ensures c < s.nextChan {
        assert TicketOk(s, Ticket(c, g, n));
      }
      assert NoRepeats(new_);
    }
  }

  lemma MarkKeepsTicket(s: State, g: Group, n: nat, u: Ticket)
    requires Inv(s) && n > 0 && u in Step(s, Mark(g, n)).tickets
    ensures TicketOk(Step(s, Mark(g, n)), u)
  {
    if u in s.tickets {
      assert TicketOk(s, u);
    }
  }

  lemma MarkKeepsInv(s: State, g: Group, n: nat)
    requires Inv(s) && n > 0
    ensures Inv(Step(s, Mark(g, n)))
  {
    hide GroupOk;
    var t := Step(s, Mark(g, n));
    forall h | h in t.groups ensures GroupOk(t, h, t.groups[h]) {
      if h == g {
        MarkKeepsGroup(s, g, n);
      } else {
        MarkKeepsOther(s, g, n, h);
      }
    }
    forall u | u in t.tickets ensures TicketOk(t, u) {
      MarkKeepsTicket(s, g, n, u);
    }
    forall u, v | u in t.tickets && v in t.tickets && u.chan == v.chan ensures u == v {
      assert u in s.tickets ==> TicketOk(s, u);
      assert v in s.tickets ==> TicketOk(s, v);
    }
  }

  lemma AckKeepsGroup(s: State, g: Group, n: nat, h: Group)
    requires Inv(s) && Frame(g, n) in s.sent && n > StateOf(s, g).acked && h in Step(s, Ack(g, n)).groups
    ensures GroupOk(Step(s, Ack(g, n)), h, Step(s, Ack(g, n)).groups[h])
  {
    assert GroupOk(s, h, s.groups[h]);
  }

  lemma AckKeepsTicket(s: State, g: Group, n: nat, u: Ticket)
    requires Inv(s) && Frame(g, n) in s.sent && n > StateOf(s, g).acked && u in s.tickets
    ensures TicketOk(Step(s, Ack(g, n)), u)
  {
    assert TicketOk(s, u);
  }

  lemma DueWasMarked(s: State, g: Group, n: nat)
    requires Inv(s) && g in s.groups
    ensures forall c :: c in Due(s.groups[g], n) ==> c < s.nextChan
  {
    assert GroupOk(s, g, s.groups[g]);
    forall c | c in Due(s.groups[g], n) ensures c < s.nextChan {
      var k :| k in s.groups[g].waiters && k <= n && c in s.groups[g].waiters[k];
      assert TicketOk(s, Ticket(c, g, k));
    }
  }

  lemma AckKeepsInv(s: State, g: Group, n: nat)
    requires Inv(s) && Frame(g, n) in s.sent
    ensures Inv(Step(s, Ack(g, n)))
  {
    hide GroupOk, TicketOk;
    var t := Step(s, Ack(g, n));
    if n > StateOf(s, g).acked {
      DueWasMarked(s, g, n);
      forall h | h in t.groups ensures GroupOk(t, h, t.groups[h]) {
        AckKeepsGroup(s, g, n, h);
      }
      forall u | u in t.tickets ensures TicketOk(t, u) {
        AckKeepsTicket(s, g, n, u);
      }
    }
  }

  /** Every step keeps the invariant. */
  lemma StepKeepsInv(s: State, e: Event)
    requires Inv(s) && Enabled(s, e)
    ensures Inv(Step(s, e))
  {
    match e
    case Mark(g, n) => MarkKeepsInv(s, g, n);
    case Send(g, n) =>
      var t := Step(s, e);
      forall h | h in t.groups ensures GroupOk(t, h, t.groups[h]) {
        assert GroupOk(s, h, s.groups[h]);
      }
      forall u | u in t.tickets ensures TicketOk(t, u) {
        assert TicketOk(s, u);
      }
    case Ack(g, n) => AckKeepsInv(s, g, n);
  }

  // ----- whole runs -----

  predicate Runs(s: State, events: seq<Event>)
    decreases |events|
  {
    events == [] || (Enabled(s, events[0]) && Runs(Step(s, events[0]), events[1..]))
  }

  function After(s: State, events: seq<Event>): State
    requires Runs(s, events)
    decreases |events|
  {
    if events == [] then s else After(Step(s, events[0]), events[1..])
  }

  /** What only ever grows: both counters of every group, the closed channels, the tickets and the accepted frames. */
  ghost predicate Grown(s: State, t: State) {
    && s.closed <= t.closed && s.tickets <= t.tickets && s.sent <= t.sent && s.nextChan <= t.nextChan
    && forall g :: StateOf(s, g).latest <= StateOf(t, g).latest && StateOf(s, g).acked <= StateOf(t, g).acked
  }

  lemma {:induction false} RunKeepsInv(s: State, events: seq<Event>)
    requires Inv(s) && Runs(s, events)
    ensures Inv(After(s, events)) && Grown(s, After(s, events))
    decreases |events|
  {
    hide Inv, Enabled;
    if events != [] {
      StepKeepsInv(s, events[0]);
      RunKeepsInv(Step(s, events[0]), events[1..]);
    }
  }

  lemma {:induction false} RunAppend(s: State, front: seq<Event>, back: seq<Event>)
    requires Runs(s, front) && Runs(After(s, front), back)
    ensures Runs(s, front + back) && After(s, front + back) == After(After(s, front), back)
    decreases |front|
  {
    hide Step, Enabled;
    if front == [] {
      assert front + back == back;
    } else {
      assert (front + back)[1..] == front[1..] + back;
      RunAppend(Step(s, front[0]), front[1..], back);
    }
  }

  lemma RunMore(s: State, steps: seq<Event>, e: Event)
    requires Runs(s, steps) && Enabled(After(s, steps), e)
    ensures Runs(s, steps + [e]) && After(s, steps + [e]) == Step(After(s, steps), e)
  {
    hide Step, Enabled;
    var mid := After(s, steps);
    assert [e][1..] == [];
    assert Runs(Step(mid, e), []) && Runs(mid, [e]);
    RunAppend(s, steps, [e]);
  }

  /** In every run, however marks, sends and acknowledgements interleave: a ticket's channel is closed exactly when its
      group's acknowledged sequence has reached it, and only after a frame with at least that sequence was accepted. */
  lemma TicketsFollowAcks(events: seq<Event>, t: Ticket)
    requires Runs(FRESH, events) && t in After(FRESH, events).tickets
    ensures var s := After(FRESH, events);
            && (t.chan in s.closed <==> t.sequence <= StateOf(s, t.group).acked)
            && (t.chan in s.closed ==> exists f :: f in s.sent && f.group == t.group && f.sequence >= t.sequence)
            && StateOf(s, t.group).acked <= StateOf(s, t.group).latest
  {
    hide Runs, After;
    FreshInv();
    RunKeepsInv(FRESH, events);
    var s := After(FRESH, events);
    assert TicketOk(s, t) && GroupOk(s, t.group, s.groups[t.group]);
    if t.chan in s.closed {
      assert Frame(t.group, s.groups[t.group].acked) in s.sent;
    }
  }

  predicate Idle(s: State) {
    forall g :: g in s.groups ==> s.groups[g].latest <= s.groups[g].acked
  }

  /** When the flusher is idle every ticket has been completed, and nothing is waiting. */
  lemma IdleCompletesAll(s: State)
    requires Inv(s) && Idle(s)
    ensures forall t :: t in s.tickets ==> t.chan in s.closed
    ensures forall g :: g in s.groups ==> s.groups[g].waiters == map[]
  {
    forall t | t in s.tickets ensures t.chan in s.closed {
      assert TicketOk(s, t);
    }
    forall g | g in s.groups ensures s.groups[g].waiters == map[] {
      assert GroupOk(s, g, s.groups[g]);
    }
  }
}
