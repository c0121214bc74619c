/** The application as it is seen from outside: what the bytes of a message and
    the numbers of a sample do, in terms of these bytes and numbers, and what
    the network and the LED get in return. */
module Interfaces {
  import opened Domain
  import opened Raising
  import opened Wire
  import MessageParsers
  import opened LedRing
  import opened LedManagers
  import opened Notifiers
  import opened Validators
  import opened Engines

  // ---- samples ----

  /** A sample replaces the value of its variable and no other. As soon as all
      variables are known, the last result of a set alert is whether every group
      of its condition has a comparison on the right side of its bound; and with
      period 0 the alert follows at once. */
  lemma SampleDecides(e: Engine, v: Variable, x: int, i: nat, room: nat)
    requires Invariant(e) && i < |e.alerts| && e.alerts[i].state.isSet
    ensures var e' := Step(e, Sample(v, x), room);
            && v in e'.values && e'.values[v] == x
            && (forall u: Variable | u != v ::
                  (u in e'.values <==> u in e.values) && (u in e.values ==> e'.values[u] == e.values[u]))
            && var a, a' := e.alerts[i], e'.alerts[i];
               && a'.state.isSet && a'.formula == a.formula
               && ((forall u: Variable :: u in e'.values) ==>
                     && (a'.state.last <==>
                           forall group | group in a.formula ::
                             exists c :: c in group &&
                               if c.op.Geq? then e'.values[c.variable] >= c.bound else e'.values[c.variable] <= c.bound)
                     && (a'.state.last && a.state.warmupMs == 0 ==> a'.state.raised)
                     && (!a'.state.last && a.state.cooldownMs == 0 ==> !a'.state.raised))
               && (!(forall u: Variable :: u in e'.values) ==> a' == a)
  {
    hide EvalCnf;
    var values := e.values[v := x];
    assert AlertOk(e.alerts[i], i, e.values);
    EvalInNumbers(e.alerts[i].formula, values);
  }

  // ---- messages ----

  /** Which bytes set up alert `i` when its id is free. */
  lemma SetsUpExactly(e: Engine, bytes: seq<byte>, i: nat, room: nat)
    requires i < |e.alerts| && !e.alerts[i].state.isSet
    ensures Received(e, bytes, room).alerts[i].state.isSet <==>
            && bytes != [] && bytes[0] == 2 && Parse(bytes[1..], room).Some?
            && var m := Parse(bytes[1..], room).value;
               && m.alertId == i
               && (m.connectivity || m.led.Some?)
               && (m.led.Some? ==> m.led.value.color <= 2 && m.led.value.pattern <= 1)
               && (exists g :: g in m.groups && g != [])
               && forall g, r | g in m.groups && r in g ::
                    && r.operator <= 1
                    && match r.variable
                       case Temperature => -500 <= r.value <= 700
                       case Pressure => r.value <= 15000
                       case Humidity => r.value <= 1000
                       case LightIntensity => r.value <= 130000
  {
    hide Parse, Stated, EvalCnf;
  }

  /** Which bytes unset alert `i`; no others touch an alert that is set. */
  lemma RemovesExactly(e: Engine, bytes: seq<byte>, i: nat, room: nat)
    requires i < |e.alerts| && e.alerts[i].state.isSet
    ensures !Received(e, bytes, room).alerts[i].state.isSet <==> bytes == [1, i]
    ensures bytes != [1, i] ==> Received(e, bytes, room).alerts[i] == e.alerts[i]
  {
    hide Parse, Stated, EvalCnf;
  }

  /** The notifications of an alert that is set up, in terms of the message. */
  lemma NotificationsAsAsked(e: Engine, bytes: seq<byte>, i: nat, room: nat)
    requires i < |e.alerts| && !e.alerts[i].state.isSet
    requires bytes != [] && bytes[0] == 2 && Parse(bytes[1..], room).Some?
    requires Received(e, bytes, room).alerts[i].state.isSet
    ensures var m, a := Parse(bytes[1..], room).value, Received(e, bytes, room).alerts[i];
            && a.setting.connectivity == m.connectivity && (a.setting.led.Some? <==> m.led.Some?)
            && a.state.warmupMs == m.warmupMs && a.state.cooldownMs == m.cooldownMs
            && (m.led.Some? ==>
                  var wire, led := m.led.value, a.setting.led.value;
                  && (led.color == Red <==> wire.color == 0) && (led.color == Green <==> wire.color == 1)
                  && (led.color == Blue <==> wire.color == 2)
                  && (led.pattern == Static <==> wire.pattern == 0)
                  && (led.pattern == LedPattern.Alert <==> wire.pattern == 1))
  {
    hide Parse, Stated, EvalCnf;
  }

  /** What an event tells of an alert that is set before and after it: exactly a
      change of its state, to the network and to the LED if enabled. */
  lemma EventTells(e: Engine, event: Event, i: nat, room: nat)
    requires Invariant(e) && Possible(e, event) && i < |e.alerts| && e.alerts[i].state.isSet
    ensures Step(e, event, room).alerts[i].state.isSet <==> event != Event.Receive([1, i])
    ensures var a, a' := e.alerts[i], Step(e, event, room).alerts[i];
            a'.state.isSet ==>
              && a'.setting == a.setting && a'.formula == a.formula
              && a'.state.warmupMs == a.state.warmupMs && a'.state.cooldownMs == a.state.cooldownMs
              && var flips := a'.state.raised != a.state.raised;
                 && a'.sent == a.sent + (if flips && a.setting.connectivity then [a'.state.raised] else [])
                 && a'.lit == a.lit +
                      (if !flips || a.setting.led.None? then []
                       else if a'.state.raised then [Add(a.setting.led.value)] else [Remove(a.setting.led.value)])
  {
    hide EvalCnf, Parse, Stated, Notifications, Received;
    var a := e.alerts[i];
    assert AlertOk(a, i, e.values);
    match event {
      case Sample(v, x) =>
        StepNotifies(a.state, SetResult(EvalCnf(a.formula, e.values[v := x])));
      case Receive(bytes) => RemovesExactly(e, bytes, i, room);
      case TimerExpired(_, timer) => StepNotifies(a.state, Expired(timer));
      case _ =>
    }
  }

  /** As long as it is not removed, an alert stays what the message made it. */
  lemma {:induction false} StaysAsSetUp(e: Engine, events: seq<Event>, i: nat, room: nat)
    requires Invariant(e) && PossibleRun(e, events, room) && i < |e.alerts| && e.alerts[i].state.isSet
    requires Event.Receive([1, i]) !in events
    ensures Invariant(Engines.Run(e, events, room)) && |Engines.Run(e, events, room).alerts| == |e.alerts|
    ensures var a, a' := e.alerts[i], Engines.Run(e, events, room).alerts[i];
            && a'.state.isSet && a'.setting == a.setting && a'.formula == a.formula
            && a'.state.warmupMs == a.state.warmupMs && a'.state.cooldownMs == a.state.cooldownMs
    decreases |events|
  {
    hide Invariant, Step, Received;
    if events != [] {
      assert events[0] in events && forall x | x in events[1..] :: x in events;
      EventTells(e, events[0], i, room);
      Engines.StepKeeps(e, events[0], room);
      StaysAsSetUp(Step(e, events[0], room), events[1..], i, room);
    }
  }

  /** From the bytes to the LED: whatever happens after an accepted message,
      short of its removal, the alert changes its state with exactly the status
      message and the LED that the bytes ask for, and its last result is whether
      every nonempty group of the bytes has a comparison that is met. */
  lemma FromBytesToLed(e: Engine, bytes: seq<byte>, events: seq<Event>, event: Event, i: byte, room: nat)
    requires Invariant(e) && i < |e.alerts| && !e.alerts[i].state.isSet
    requires bytes != [] && bytes[0] == 2 && Parse(bytes[1..], room).Some?
    requires Received(e, bytes, room).alerts[i].state.isSet
    requires PossibleRun(Received(e, bytes, room), events, room)
    requires Possible(Engines.Run(Received(e, bytes, room), events, room), event)
    requires Event.Receive([1, i]) !in events && event != Event.Receive([1, i])
    ensures var e1 := Engines.Run(Received(e, bytes, room), events, room);
            var e2 := Step(e1, event, room);
            && |e1.alerts| == |e2.alerts| == |e.alerts|
            && var m, a, b := Parse(bytes[1..], room).value, e1.alerts[i], e2.alerts[i];
               var flips := b.state.raised != a.state.raised;
               && a.state.isSet && b.state.isSet
               && b.sent == a.sent + (if flips && m.connectivity then [b.state.raised] else [])
               && (!flips || m.led.None? ==> b.lit == a.lit)
               && (flips && m.led.Some? ==>
                     exists led: Led ::
                       && b.lit == a.lit + [if b.state.raised then Add(led) else Remove(led)]
                       && (led.color == Red <==> m.led.value.color == 0)
                       && (led.color == Green <==> m.led.value.color == 1)
                       && (led.pattern == Static <==> m.led.value.pattern == 0))
               && ((forall u: Variable :: u in e2.values) ==>
                     (b.state.last <==>
                        forall g | g in m.groups && g != [] ::
                          exists r :: r in g &&
                            if r.operator == 0 then e2.values[r.variable] >= r.value
                            else e2.values[r.variable] <= r.value))
  {
    hide Invariant, Step, Engines.Run, Received, Parse, EvalCnf;
    var e0 := Received(e, bytes, room);
    var e1 := Engines.Run(e0, events, room);
    Engines.StepKeeps(e, Event.Receive(bytes), room);
    assert Step(e, Event.Receive(bytes), room) == e0 by { StepIsReceived(e, bytes, room); }
    NotificationsAsAsked(e, bytes, i, room);
    StaysAsSetUp(e0, events, i, room);
    EventTells(e1, event, i, room);
    var e2 := Step(e1, event, room);
    Engines.StepKeeps(e1, event, room);
    LastIsVerdict(e2, i);
    AcceptedMeans(e, bytes, i, room, e2.values);
  }

  lemma StepIsReceived(e: Engine, bytes: seq<byte>, room: nat)
    ensures Step(e, Event.Receive(bytes), room) == Received(e, bytes, room)
  {
  }

  lemma LastIsVerdict(e: Engine, i: nat)
    requires Invariant(e) && i < |e.alerts| && e.alerts[i].state.isSet
    ensures Ready(e.values) ==> (e.alerts[i].state.last <==> EvalCnf(e.alerts[i].formula, e.values))
  {
    assert AlertOk(e.alerts[i], i, e.values);
  }

  lemma AcceptedMeans(e: Engine, bytes: seq<byte>, i: byte, room: nat, values: Readings)
    requires i < |e.alerts| && !e.alerts[i].state.isSet
    requires bytes != [] && bytes[0] == 2 && Parse(bytes[1..], room).Some?
    requires Received(e, bytes, room).alerts[i].state.isSet
    ensures EvalCnf(Received(e, bytes, room).alerts[i].formula, values) <==>
            forall g | g in Parse(bytes[1..], room).value.groups && g != [] ::
              exists r :: r in g && r.variable in values &&
                if r.operator == 0 then values[r.variable] >= r.value else values[r.variable] <= r.value
  {
    SetsUpExactly(e, bytes, i, room);
    ReceivedMeans(e, bytes, room);
  }
}
