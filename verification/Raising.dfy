/** What an alert raiser is meant to do (src/app/alert_raiser.h:12-70), without
    timer flags: the alert follows the last reported condition result, at once
    if the period is 0 and otherwise when the timer of that direction expires. */
module Raising {
  import opened Domain

  datatype Timer = Warmup | Cooldown

  datatype Input =
    | SetAlert(alertId: byte, warmupMs: uint32, cooldownMs: uint32)
    | UnsetAlert
    | SetResult(result: bool)
    | Expired(timer: Timer)

  datatype Output =
    | Notify(alertId: byte, raised: bool)
    | StartTimer(timer: Timer)
    | StopTimer(timer: Timer)
    | SetPeriod(timer: Timer, periodMs: uint32)

  /** The timer whose expiry makes the alert raised or silenced. */
  function TimerToward(raised: bool): Timer {
    if raised then Warmup else Cooldown
  }

  datatype Debouncer = Debouncer(
    isSet: bool,
    alertId: byte,
    warmupMs: uint32,
    cooldownMs: uint32,
    raised: bool,
    /** The last result reported for the alert, false when it was just set. */
    last: bool)
  {
    function Period(timer: Timer): uint32 {
      if timer == Warmup then warmupMs else cooldownMs
    }

    /** A change of state is due: its timer is on. */
    predicate Pending(timer: Timer) {
      raised != last && timer == TimerToward(last)
    }

    ghost predicate Valid() {
      && (!isSet ==> !raised && !last)
      && (raised != last ==> Period(TimerToward(last)) > 0)
    }

    /** The source asserts on an alert that is already or not yet set. */
    predicate Accepts(input: Input) {
      match input
      case SetAlert(_, _, _) => !isSet
      case SetResult(_) => isSet
      case _ => true
    }

    function Step(input: Input): (d: Debouncer)
      requires Accepts(input)
    {
      match input
      case SetAlert(id, w, c) => Debouncer(true, id, w, c, raised, false)
      case UnsetAlert => this.(isSet := false, raised := false, last := false)
      case SetResult(b) =>
        this.(last := b, raised := if raised != b && Period(TimerToward(b)) == 0 then b else raised)
      case Expired(t) => if Pending(t) then this.(raised := last) else this
    }

    function Emits(input: Input): seq<Output>
      requires Accepts(input)
    {
      match input
      case SetAlert(id, w, c) =>
        (if w > 0 then [SetPeriod(Warmup, w)] else []) + (if c > 0 then [SetPeriod(Cooldown, c)] else [])
      case UnsetAlert =>
        (if raised != last then [StopTimer(TimerToward(last))] else []) +
        (if raised then [Notify(alertId, false)] else [])
      case SetResult(b) =>
        if raised == b then
          if raised != last then [StopTimer(TimerToward(last))] else []
        else if Period(TimerToward(b)) == 0 then [Notify(alertId, b)]
        else if raised != last then []
        else [StartTimer(TimerToward(b))]
      case Expired(t) => if Pending(t) then [Notify(alertId, last)] else []
    }
  }

  const INITIAL := Debouncer(false, 0, 0, 0, false, false)

  lemma StepValid(d: Debouncer, input: Input)
    requires d.Valid() && d.Accepts(input)
    ensures d.Step(input).Valid()
  {
  }

  /** Repeating the last result does nothing, so that a raiser cannot tell how
      often its condition is evaluated. */
  lemma RepeatedResult(d: Debouncer)
    requires d.Valid() && d.isSet
    ensures d.Step(SetResult(d.last)) == d && d.Emits(SetResult(d.last)) == []
  {
  }

  ghost predicate Accepted(d: Debouncer, inputs: seq<Input>)
    decreases |inputs|
  {
    inputs == [] || (d.Accepts(inputs[0]) && Accepted(d.Step(inputs[0]), inputs[1..]))
  }

  function Run(d: Debouncer, inputs: seq<Input>): Debouncer
    requires Accepted(d, inputs)
    decreases |inputs|
  {
    if inputs == [] then d else Run(d.Step(inputs[0]), inputs[1..])
  }

  function Log(d: Debouncer, inputs: seq<Input>): seq<Output>
    requires Accepted(d, inputs)
    decreases |inputs|
  {
    if inputs == [] then [] else d.Emits(inputs[0]) + Log(d.Step(inputs[0]), inputs[1..])
  }

  /** The notifications of a log, as the raised flags they carry. */
  function Notifications(log: seq<Output>): seq<bool> {
    if log == [] then []
    else (if log[0].Notify? then [log[0].raised] else []) + Notifications(log[1..])
  }

  /** Each notification flips the state, which is `from` before the first. */
  predicate Alternates(from: bool, notes: seq<bool>)
    decreases |notes|
  {
    notes == [] || (notes[0] != from && Alternates(notes[0], notes[1..]))
  }

  lemma {:induction false} NotificationsConcat(a: seq<Output>, b: seq<Output>)
    ensures Notifications(a + b) == Notifications(a) + Notifications(b)
  {
    if a == [] {
      assert a + b == b;
    } else {
      assert (a + b)[1..] == a[1..] + b;
      NotificationsConcat(a[1..], b);
    }
  }

  lemma FlipThenAlternate(from: bool, to: bool, notes: seq<bool>)
    requires Alternates(to, notes)
    ensures var all := (if to != from then [to] else []) + notes;
            && Alternates(from, all)
            && (if all == [] then from else all[|all| - 1]) == if notes == [] then to else notes[|notes| - 1]
  {
    if to != from {
      assert ([to] + notes)[1..] == notes;
    } else {
      assert [] + notes == notes;
    }
  }

  /** One input notifies at most once, exactly when the state changes. */
  lemma StepNotifies(d: Debouncer, input: Input)
    requires d.Valid() && d.Accepts(input)
    ensures Notifications(d.Emits(input)) ==
            if d.Step(input).raised != d.raised then [d.Step(input).raised] else []
  {
    var emitted := d.Emits(input);
    if |emitted| == 2 {
      assert emitted == [emitted[0]] + [emitted[1]];
      NotificationsConcat([emitted[0]], [emitted[1]]);
    }
  }

  lemma RunNotifies(d: Debouncer, inputs: seq<Input>)
    requires d.Valid() && Accepted(d, inputs) && inputs != []
    ensures var next := d.Step(inputs[0]);
            && next.Valid() && Run(d, inputs) == Run(next, inputs[1..])
            && Notifications(Log(d, inputs)) ==
               (if next.raised != d.raised then [next.raised] else []) + Notifications(Log(next, inputs[1..]))
  {
    StepNotifies(d, inputs[0]);
    NotificationsConcat(d.Emits(inputs[0]), Log(d.Step(inputs[0]), inputs[1..]));
  }

  /** No receiver of notifications hears "raised" or "silenced" twice in a row,
      in any run, stale expiries included, and the last one it heard is the
      state of the alert. */
  lemma {:induction false} NotificationsAlternate(d: Debouncer, inputs: seq<Input>)
    requires d.Valid() && Accepted(d, inputs)
    ensures var notes := Notifications(Log(d, inputs));
            && Alternates(d.raised, notes)
            && Run(d, inputs).raised == if notes == [] then d.raised else notes[|notes| - 1]
    decreases |inputs|
  {
    if inputs != [] {
      var next := d.Step(inputs[0]);
      RunNotifies(d, inputs);
      NotificationsAlternate(next, inputs[1..]);
      FlipThenAlternate(d.raised, next.raised, Notifications(Log(next, inputs[1..])));
    }
  }

  lemma {:induction false} AlternatesParity(from: bool, notes: seq<bool>)
    requires Alternates(from, notes)
    ensures (if notes == [] then from else notes[|notes| - 1]) == if |notes| % 2 == 0 then from else !from
    ensures forall i | 0 <= i < |notes| :: notes[i] == if i % 2 == 0 then !from else from
    decreases |notes|
  {
    if notes != [] {
      AlternatesParity(notes[0], notes[1..]);
      assert forall i | 0 < i < |notes| :: notes[i] == notes[1..][i - 1];
    }
  }

  /** From creation on: raised, silenced, raised, ... and balanced whenever the
      alert has just been unset. */
  lemma NotificationsOfARaiser(inputs: seq<Input>)
    requires Accepted(INITIAL, inputs)
    ensures var notes := Notifications(Log(INITIAL, inputs));
            && (forall i | 0 <= i < |notes| :: notes[i] == (i % 2 == 0))
            && (|notes| % 2 == 0 <==> !Run(INITIAL, inputs).raised)
            && (inputs != [] && inputs[|inputs| - 1] == UnsetAlert ==> |notes| % 2 == 0)
  {
    NotificationsAlternate(INITIAL, inputs);
    AlternatesParity(false, Notifications(Log(INITIAL, inputs)));
    if inputs != [] && inputs[|inputs| - 1] == UnsetAlert {
      RunEndsUnset(INITIAL, inputs);
    }
  }

  lemma {:induction false} RunEndsUnset(d: Debouncer, inputs: seq<Input>)
    requires Accepted(d, inputs)
    requires inputs != [] && inputs[|inputs| - 1] == UnsetAlert
    ensures !Run(d, inputs).raised
    decreases |inputs|
  {
    if |inputs| > 1 {
      RunEndsUnset(d.Step(inputs[0]), inputs[1..]);
    } else {
      assert Run(d, inputs) == d.Step(UnsetAlert);
    }
  }

  /** The timers as the outputs drive them: which are on, and their periods. */
  datatype Timers = Timers(on: set<Timer>, periods: map<Timer, uint32>) {
    /** A timer may not be started with period 0, nor given a period while on,
        nor started or stopped twice in a row. */
    predicate Allows(o: Output) {
      match o
      case StartTimer(t) => t !in on && t in periods && periods[t] > 0
      case StopTimer(t) => t in on
      case SetPeriod(t, _) => t !in on
      case Notify(_, _) => true
    }

    /** A notification of an expiry means that the timer has run out. */
    function After(o: Output): Timers {
      match o
      case StartTimer(t) => this.(on := on + {t})
      case StopTimer(t) => this.(on := on - {t})
      case SetPeriod(t, p) => this.(periods := periods[t := p])
      case Notify(_, raised) => this.(on := on - {TimerToward(raised)})
    }
  }

  ghost predicate AllowsAll(t: Timers, log: seq<Output>)
    decreases |log|
  {
    log == [] || (t.Allows(log[0]) && AllowsAll(t.After(log[0]), log[1..]))
  }

  function AfterAll(t: Timers, log: seq<Output>): Timers
    decreases |log|
  {
    if log == [] then t else AfterAll(t.After(log[0]), log[1..])
  }

  /** The timers mirror the raiser: the one on is the one toward the last
      result, and a timer that may be started has the period of the alert. */
  ghost predicate Mirrors(d: Debouncer, t: Timers) {
    && (forall timer: Timer :: timer in t.on <==> d.Pending(timer))
    && (forall timer: Timer ::
          d.isSet && d.Period(timer) > 0 ==> timer in t.periods && t.periods[timer] == d.Period(timer))
  }

  lemma {:induction false} AllowsConcat(t: Timers, a: seq<Output>, b: seq<Output>)
    ensures AllowsAll(t, a + b) <==> AllowsAll(t, a) && AllowsAll(AfterAll(t, a), b)
    ensures AfterAll(t, a + b) == AfterAll(AfterAll(t, a), b)
    decreases |a|
  {
    if a == [] {
      assert a + b == b;
    } else {
      assert (a + b)[1..] == a[1..] + b;
      AllowsConcat(t.After(a[0]), a[1..], b);
    }
  }

  lemma StepTimers(d: Debouncer, input: Input, t: Timers)
    requires d.Valid() && d.Accepts(input) && Mirrors(d, t)
    ensures AllowsAll(t, d.Emits(input)) && Mirrors(d.Step(input), AfterAll(t, d.Emits(input)))
  {
    var emitted := d.Emits(input);
    if |emitted| == 2 {
      assert emitted == [emitted[0]] + [emitted[1]];
      AllowsConcat(t, [emitted[0]], [emitted[1]]);
    }
  }

  /** In every run, stale expiries included, the timers are used properly and
      exactly the timer toward the last result is on while a change is due. */
  lemma {:induction false} TimersFollow(d: Debouncer, inputs: seq<Input>, t: Timers)
    requires d.Valid() && Accepted(d, inputs) && Mirrors(d, t)
    ensures AllowsAll(t, Log(d, inputs))
    ensures Mirrors(Run(d, inputs), AfterAll(t, Log(d, inputs)))
    decreases |inputs|
  {
    if inputs != [] {
      StepTimers(d, inputs[0], t);
      var t' := AfterAll(t, d.Emits(inputs[0]));
      TimersFollow(d.Step(inputs[0]), inputs[1..], t');
      AllowsConcat(t, d.Emits(inputs[0]), Log(d.Step(inputs[0]), inputs[1..]));
    }
  }
}
