/** The slots that hold the callbacks of status messages in transmission
    (src/app/middleware/msg_transceiver.c:16-63, :555-564, :594-660), and the
    network as far as it shows: which transmissions are still to complete. */
module MessageSlots {
  import opened Domain
  import opened Sequences

  /** A message with the callback of its sender; callbacks are told apart by a
      number, and None is the null callback. */
  datatype Message = Message(alertId: byte, raised: bool, cb: Option<nat>, userData: int)

  datatype Slot = Slot(isOccupied: bool, cb: Option<nat>, userData: int)

  const VACANT := Slot(false, None, 0)

  /** The report of a result to the sender of a message; with cb None nothing is
      called. `ticket` is the message the result belongs to. */
  datatype Call = Call(ticket: nat, cb: Option<nat>, userData: int, result: bool)

  datatype Traffic = Traffic(
    slots: seq<Slot>,
    initialized: bool,
    /** Every message ever sent; its position is its ticket. */
    sent: seq<Message>,
    /** The messages the network has yet to complete, with the slot it was given. */
    transit: map<nat, nat>,
    calls: seq<Call>)

  datatype Event = Init | Deinit | Send(msg: Message) | Complete(ticket: nat, result: bool)

  /** The first vacant slot, |slots| if there is none. */
  function FirstVacant(slots: seq<Slot>): (i: nat)
    ensures i <= |slots|
    ensures i < |slots| ==> !slots[i].isOccupied
    ensures forall j | 0 <= j < i :: slots[j].isOccupied
  {
    if slots == [] || !slots[0].isOccupied then 0 else 1 + FirstVacant(slots[1..])
  }

  function AllVacant(slots: seq<Slot>): (r: seq<Slot>)
    ensures |r| == |slots| && forall i | 0 <= i < |r| :: r[i] == VACANT
  {
    seq(|slots|, _ => VACANT)
  }

  predicate Possible(t: Traffic, e: Event) {
    match e
    case Init => !t.initialized
    case Deinit => true
    case Send(_) => t.initialized
    case Complete(ticket, _) => ticket in t.transit && t.transit[ticket] < |t.slots|
  }

  function Step(t: Traffic, e: Event): Traffic
    requires Possible(t, e)
  {
    match e
    case Init => t.(slots := AllVacant(t.slots), initialized := true)
    case Deinit => if t.initialized then t.(slots := AllVacant(t.slots), initialized := false) else t
    case Send(m) =>
      var i := FirstVacant(t.slots);
      var sent := t.(sent := t.sent + [m]);
      if i == |t.slots| then sent.(calls := t.calls + [Call(|t.sent|, m.cb, m.userData, false)])
      else sent.(slots := t.slots[i := Slot(true, m.cb, m.userData)], transit := t.transit[|t.sent| := i])
    case Complete(ticket, result) =>
      var i := t.transit[ticket];
      var slot := t.slots[i];
      var done := t.(transit := t.transit - {ticket});
      if !slot.isOccupied then done
      else done.(slots := t.slots[i := slot.(isOccupied := false)],
                 calls := t.calls + [Call(ticket, slot.cb, slot.userData, result)])
  }

  function Initially(numSlots: nat): Traffic {
    Traffic(seq(numSlots, _ => VACANT), false, [], map[], [])
  }

  /** Every outstanding message has its callback in the slot it was given. */
  ghost predicate Backed(t: Traffic) {
    forall k | k in t.transit ::
      && k < |t.sent| && t.transit[k] < |t.slots|
      && t.slots[t.transit[k]] == Slot(true, t.sent[k].cb, t.sent[k].userData)
  }

  ghost predicate GivenSlot(t: Traffic, k: nat, i: int) {
    k in t.transit && t.transit[k] == i
  }

  ghost predicate Injective(t: Traffic) {
    forall k, l | k in t.transit && l in t.transit && k != l :: t.transit[k] != t.transit[l]
  }

  ghost predicate Covered(t: Traffic) {
    forall i | 0 <= i < |t.slots| && t.slots[i].isOccupied :: exists k: nat :: GivenSlot(t, k, i)
  }

  /** Outstanding messages and occupied slots correspond one to one. */
  ghost predicate OneToOne(t: Traffic) {
    Backed(t) && Injective(t) && Covered(t)
  }

  ghost predicate IsOwn(t: Traffic, c: Call) {
    c.ticket < |t.sent| && c.cb == t.sent[c.ticket].cb && c.userData == t.sent[c.ticket].userData
  }

  function Tickets(calls: seq<Call>): (r: seq<int>)
    ensures |r| == |calls| && forall i | 0 <= i < |r| :: r[i] == calls[i].ticket
  {
    seq(|calls|, i requires 0 <= i < |calls| => calls[i].ticket)
  }

  /** Every message is either outstanding or has had exactly one report, with
      its own callback and user data. */
  ghost predicate ExactlyOnce(t: Traffic) {
    && (forall c | c in t.calls :: IsOwn(t, c))
    && Distinct(Tickets(t.calls))
    && (forall k | 0 <= k < |t.sent| :: k in t.transit <==> k !in Tickets(t.calls))
    && (forall k | k in t.transit :: k < |t.sent|)
  }

  /** What holds while no message is outstanding at a deinitialization. */
  ghost predicate Tracked(t: Traffic) {
    OneToOne(t) && ExactlyOnce(t)
  }

  /** Nothing is outstanding when the interface is deinitialized. */
  predicate Orderly(t: Traffic, e: Event) {
    e == Deinit ==> t.transit == map[]
  }

  lemma SendBacked(t: Traffic, m: Message)
    requires Possible(t, Send(m)) && Backed(t) && Injective(t) && |t.sent| !in t.transit
    ensures Backed(Step(t, Send(m))) && Injective(Step(t, Send(m)))
  {
  }

  lemma SendCovered(t: Traffic, m: Message)
    requires Possible(t, Send(m)) && Covered(t) && |t.sent| !in t.transit
    ensures Covered(Step(t, Send(m)))
  {
    var t' := Step(t, Send(m));
    forall j | 0 <= j < |t'.slots| && t'.slots[j].isOccupied ensures exists k: nat :: GivenSlot(t', k, j) {
      if t.slots[j].isOccupied {
        var k: nat :| GivenSlot(t, k, j);
        assert GivenSlot(t', k, j);
      } else {
        assert GivenSlot(t', |t.sent|, j);
      }
    }
  }

  lemma CompleteOneToOne(t: Traffic, ticket: nat, result: bool)
    requires Possible(t, Complete(ticket, result)) && OneToOne(t)
    ensures OneToOne(Step(t, Complete(ticket, result)))
  {
    var t' := Step(t, Complete(ticket, result));
    forall j | 0 <= j < |t'.slots| && t'.slots[j].isOccupied ensures exists k: nat :: GivenSlot(t', k, j) {
      var k: nat :| GivenSlot(t, k, j);
      assert GivenSlot(t', k, j);
    }
  }

  /** Reporting a message that has not been reported yet. */
  lemma ReportOnce(t: Traffic, t': Traffic, c: Call)
    requires ExactlyOnce(t)
    requires t'.calls == t.calls + [c] && IsOwn(t', c) && c.ticket !in Tickets(t.calls)
    requires t.sent <= t'.sent
    requires forall k | 0 <= k < |t'.sent| && k != c.ticket :: k < |t.sent| && (k in t'.transit <==> k in t.transit)
    requires c.ticket !in t'.transit && forall k | k in t'.transit :: k in t.transit
    ensures ExactlyOnce(t')
  {
    DistinctExtend(Tickets(t.calls), c.ticket);
    assert Tickets(t'.calls) == Tickets(t.calls) + [c.ticket];
    assert forall x | x in t.calls :: IsOwn(t, x) && IsOwn(t', x);
  }

  lemma TicketsSent(t: Traffic)
    requires forall c | c in t.calls :: IsOwn(t, c)
    ensures forall k | k in Tickets(t.calls) :: k < |t.sent|
  {
    assert forall j | 0 <= j < |t.calls| :: t.calls[j] in t.calls && IsOwn(t, t.calls[j]);
  }

  lemma SendKeeps(t: Traffic, m: Message)
    requires Possible(t, Send(m)) && OneToOne(t) && ExactlyOnce(t)
    ensures OneToOne(Step(t, Send(m))) && ExactlyOnce(Step(t, Send(m)))
  {
    SendBacked(t, m);
    SendCovered(t, m);
    TicketsSent(t);
    var t' := Step(t, Send(m));
    if FirstVacant(t.slots) == |t.slots| {
      ReportOnce(t, t', Call(|t.sent|, m.cb, m.userData, false));
    } else {
      assert forall x | x in t.calls :: IsOwn(t, x) && IsOwn(t', x);
    }
  }

  lemma CompleteKeeps(t: Traffic, ticket: nat, result: bool)
    requires Possible(t, Complete(ticket, result)) && OneToOne(t) && ExactlyOnce(t)
    ensures OneToOne(Step(t, Complete(ticket, result))) && ExactlyOnce(Step(t, Complete(ticket, result)))
  {
    CompleteOneToOne(t, ticket, result);
    var m := t.sent[ticket];
    ReportOnce(t, Step(t, Complete(ticket, result)), Call(ticket, m.cb, m.userData, result));
  }

  lemma StepKeeps(t: Traffic, e: Event)
    requires Possible(t, e) && Orderly(t, e)
    requires OneToOne(t) && ExactlyOnce(t) && (t.initialized || t.transit == map[])
    ensures var t' := Step(t, e);
            OneToOne(t') && ExactlyOnce(t') && (t'.initialized || t'.transit == map[])
  {
    match e {
      case Send(m) => SendKeeps(t, m);
      case Complete(k, r) => CompleteKeeps(t, k, r);
      case _ =>
    }
  }

  ghost predicate OrderlyRun(t: Traffic, events: seq<Event>)
    decreases |events|
  {
    events == [] ||
    (Possible(t, events[0]) && Orderly(t, events[0]) && OrderlyRun(Step(t, events[0]), events[1..]))
  }

  function Run(t: Traffic, events: seq<Event>): Traffic
    requires OrderlyRun(t, events)
    decreases |events|
  {
    if events == [] then t else Run(Step(t, events[0]), events[1..])
  }

  lemma {:induction false} RunKeeps(t: Traffic, events: seq<Event>)
    requires OrderlyRun(t, events)
    requires OneToOne(t) && ExactlyOnce(t) && (t.initialized || t.transit == map[])
    ensures OneToOne(Run(t, events)) && ExactlyOnce(Run(t, events))
    decreases |events|
  {
    if events != [] {
      StepKeeps(t, events[0]);
      RunKeeps(Step(t, events[0]), events[1..]);
    }
  }

  /** In every orderly run from the start, with any number of slots. */
  lemma EveryMessageReportedOnce(numSlots: nat, events: seq<Event>)
    requires OrderlyRun(Initially(numSlots), events)
    ensures OneToOne(Run(Initially(numSlots), events)) && ExactlyOnce(Run(Initially(numSlots), events))
  {
    RunKeeps(Initially(numSlots), events);
  }

  /** What an event reports: the network's own result on a message that completes,
      and at once `false` on one for which no slot is vacant. */
  lemma StepReports(t: Traffic, e: Event)
    requires Possible(t, e) && OneToOne(t)
    ensures Step(t, e).calls == t.calls +
              match e
              case Complete(ticket, result) => [Call(ticket, t.sent[ticket].cb, t.sent[ticket].userData, result)]
              case Send(m) =>
                if forall i | 0 <= i < |t.slots| :: t.slots[i].isOccupied
                then [Call(|t.sent|, m.cb, m.userData, false)] else []
              case _ => []
    ensures Step(t, e).sent == t.sent + if e.Send? then [e.msg] else []
  {
    match e {
      case Send(m) => assert FirstVacant(t.slots) < |t.slots| ==> !t.slots[FirstVacant(t.slots)].isOccupied;
      case _ =>
    }
  }

  /** Among the events there is one that sends message `ticket` while all slots
      are occupied. */
  ghost predicate Refused(t: Traffic, events: seq<Event>, ticket: nat)
    requires OrderlyRun(t, events)
    decreases |events|
  {
    events != [] &&
    ((events[0].Send? && |t.sent| == ticket && forall i | 0 <= i < |t.slots| :: t.slots[i].isOccupied)
     || Refused(Step(t, events[0]), events[1..], ticket))
  }

  lemma {:induction false} RunReports(t: Traffic, events: seq<Event>)
    requires OrderlyRun(t, events)
    requires OneToOne(t) && ExactlyOnce(t) && (t.initialized || t.transit == map[])
    ensures t.calls <= Run(t, events).calls
    ensures forall c | c in Run(t, events).calls[|t.calls|..] ::
              Complete(c.ticket, c.result) in events || (c.result == false && Refused(t, events, c.ticket))
    ensures forall ticket, result | Complete(ticket, result) in events ::
              exists c :: c in Run(t, events).calls[|t.calls|..] && c.ticket == ticket && c.result == result
    decreases |events|
  {
    hide OneToOne, ExactlyOnce, Step;
    if events != [] {
      var t' := Step(t, events[0]);
      StepKeeps(t, events[0]);
      StepReports(t, events[0]);
      RunReports(t', events[1..]);
      var now := t'.calls[|t.calls|..];
      var more := Run(t', events[1..]).calls[|t'.calls|..];
      assert Run(t, events).calls[|t.calls|..] == now + more;
      forall ticket, result | Complete(ticket, result) in events
        ensures exists c :: c in Run(t, events).calls[|t.calls|..] && c.ticket == ticket && c.result == result
      {
        if events[0] == Complete(ticket, result) {
          assert now[0] in now + more;
        } else {
          assert Complete(ticket, result) in events[1..];
          var c :| c in more && c.ticket == ticket && c.result == result;
          assert c in now + more;
        }
      }
    }
  }

  /** In every orderly run from the start a report that was called is the
      network's report on that message, or `false` on one that found no slot;
      and every report of the network is called. */
  lemma ReportsAreTrue(numSlots: nat, events: seq<Event>)
    requires OrderlyRun(Initially(numSlots), events)
    ensures forall c | c in Run(Initially(numSlots), events).calls ::
              || Complete(c.ticket, c.result) in events
              || (c.result == false && Refused(Initially(numSlots), events, c.ticket))
    ensures forall ticket, result | Complete(ticket, result) in events ::
              exists c :: c in Run(Initially(numSlots), events).calls && c.ticket == ticket && c.result == result
  {
    RunReports(Initially(numSlots), events);
    var calls := Run(Initially(numSlots), events).calls;
    assert calls[0..] == calls;
  }

  /** A deinitialization keeps this if and only if nothing is outstanding. */
  lemma DeinitTrackedExactly(t: Traffic)
    requires Tracked(t) && t.initialized
    ensures Tracked(Step(t, Deinit)) <==> t.transit == map[]
  {
    if t.transit != map[] {
      var k :| k in t.transit;
      assert Step(t, Deinit).slots[t.transit[k]] == VACANT;
    }
  }

  /** Deinitializing with a message outstanding breaks this: its slot is given
      to the next message, whose sender then gets the old message's result. */
  lemma DeinitWhileOutstanding(m0: Message, m1: Message)
    requires m0.userData != m1.userData
    ensures var t1 := Step(Step(Initially(1), Init), Send(m0));
            && Possible(t1, Deinit) && !Orderly(t1, Deinit)
            && var t2 := Step(Step(Step(t1, Deinit), Init), Send(m1));
               && Possible(t2, Complete(0, true))
               && var t3 := Step(t2, Complete(0, true));
                  t3.calls == [Call(0, m1.cb, m1.userData, true)] && !IsOwn(t3, t3.calls[0])
  {
    var t1 := Step(Step(Initially(1), Init), Send(m0));
    assert t1.transit[0] == 0;
  }
}
