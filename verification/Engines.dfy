/** What the whole application is meant to do, without caches, lists or arrays:
    every alert is evaluated from scratch on every sample. */
module Engines {
  import opened Domain
  import opened Raising
  import opened Wire
  import MessageParsers
  import opened LedRing
  import opened LedManagers
  import opened Notifiers
  import opened RaiserBanks
  import opened Lights
  import opened Validators

  /** An alert as it can be observed. */
  datatype AlertState = AlertState(
    state: Debouncer,
    /** Notifications and timer commands since creation. */
    log: seq<Output>,
    /** Status messages sent since creation. */
    sent: seq<bool>,
    /** Commands to the LED manager since creation. */
    lit: seq<Op<Led>>,
    setting: Setting,
    formula: Cnf)
  {
    /** The raiser of the alert gets an input. */
    function Told(input: Input): AlertState
      requires state.Accepts(input)
    {
      var emitted := state.Emits(input);
      this.(state := state.Step(input), log := log + emitted,
            sent := sent + if setting.connectivity then Notifications(emitted) else [],
            lit := lit + Lit(setting.led, Notifications(emitted)))
    }

    function Evaluated(values: Readings): AlertState {
      if state.isSet then Told(SetResult(EvalCnf(formula, values))) else this
    }
  }

  datatype Engine = Engine(values: Readings, alerts: seq<AlertState>)

  datatype Event =
    | Sample(variable: Variable, value: int)
    | Receive(bytes: seq<byte>)
    /** An expiry handled for the raiser `id`, stale or not. */
    | TimerExpired(id: nat, timer: Timer)
    | LedTimerExpired
    /** The network reports on the status message in this slot. */
    | Transmitted(slot: nat, result: bool)

  predicate Possible(e: Engine, event: Event) {
    event.TimerExpired? ==> event.id < |e.alerts|
  }

  function EvaluatedAll(alerts: seq<AlertState>, values: Readings): (r: seq<AlertState>)
    ensures |r| == |alerts| && forall i | 0 <= i < |r| :: r[i] == alerts[i].Evaluated(values)
  {
    seq(|alerts|, i requires 0 <= i < |alerts| => alerts[i].Evaluated(values))
  }

  /** Alert `a` set up for the message of `alert`, ... */
  function Armed(a: AlertState, alert: MessageParsers.Alert, formula: Cnf): (r: AlertState)
    requires !a.state.isSet && (alert.led.Some? ==> ValidLed(alert.led.value))
    ensures r.state.isSet && r.formula == formula
  {
    a.(setting := SettingOf(alert), formula := formula).Told(SetAlert(alert.alertId, alert.warmupMs, alert.cooldownMs))
  }

  /** ... and evaluated if possible. */
  function SetUp(a: AlertState, alert: MessageParsers.Alert, formula: Cnf, values: Readings): AlertState
    requires !a.state.isSet && (alert.led.Some? ==> ValidLed(alert.led.value))
  {
    var armed := Armed(a, alert, formula);
    if Ready(values) then armed.Evaluated(values) else armed
  }

  /** An acceptable alert with a free id is set up. */
  ghost function Added(e: Engine, m: Message): (e': Engine)
    ensures |e'.alerts| == |e.alerts|
  {
    if !Acceptable(m, |e.alerts|) || e.alerts[m.alertId].state.isSet then e
    else
      e.(alerts := e.alerts[m.alertId :=
        SetUp(e.alerts[m.alertId], MessageParsers.Flatten(m), Stated(m.groups), e.values)])
  }

  /** Alert `a` silenced, although no message says so, and unset. */
  function Disarmed(a: AlertState): (r: AlertState)
    ensures !r.state.isSet && r.formula == a.formula
  {
    a.(setting := a.setting.(connectivity := false)).Told(UnsetAlert).(setting := SILENT)
  }

  function Removed(e: Engine, id: nat): (e': Engine)
    ensures |e'.alerts| == |e.alerts|
  {
    if id >= |e.alerts| || !e.alerts[id].state.isSet then e
    else e.(alerts := e.alerts[id := Disarmed(e.alerts[id]).(formula := [])])
  }

  ghost function Received(e: Engine, bytes: seq<byte>, room: nat): (e': Engine)
    ensures |e'.alerts| == |e.alerts|
  {
    if bytes == [] then e
    else
      match bytes[0]
      case 1 => if |bytes| == 2 then Removed(e, bytes[1]) else e
      case 2 => (match Parse(bytes[1..], room) case None => e case Some(m) => Added(e, m))
      case _ => e
  }

  ghost function Step(e: Engine, event: Event, room: nat): (e': Engine)
    requires Possible(e, event)
    ensures |e'.alerts| == |e.alerts|
  {
    match event
    case Sample(v, x) =>
      var values := e.values[v := x];
      Engine(values, if Ready(values) then EvaluatedAll(e.alerts, values) else e.alerts)
    case Receive(bytes) => Received(e, bytes, room)
    case TimerExpired(id, timer) => e.(alerts := e.alerts[id := e.alerts[id].Told(Expired(timer))])
    case LedTimerExpired => e
    case Transmitted(_, _) => e
  }

  function Initially(n: nat): (e: Engine)
    ensures |e.alerts| == n && forall i | 0 <= i < n :: e.alerts[i] == AlertState(INITIAL, [], [], [], SILENT, [])
  {
    Engine(map[], seq(n, _ => AlertState(INITIAL, [], [], [], SILENT, [])))
  }

  lemma StepSize(e: Engine, event: Event, room: nat)
    requires Possible(e, event)
    ensures |Step(e, event, room).alerts| == |e.alerts|
  {
  }

  ghost predicate PossibleRun(e: Engine, events: seq<Event>, room: nat)
    decreases |events|
  {
    events == [] || (Possible(e, events[0]) && PossibleRun(Step(e, events[0], room), events[1..], room))
  }

  ghost function Run(e: Engine, events: seq<Event>, room: nat): Engine
    requires PossibleRun(e, events, room)
    decreases |events|
  {
    if events == [] then e else Run(Step(e, events[0], room), events[1..], room)
  }

  /** What makes an event possible does not change during a run. */
  lemma {:induction false} AllPossible(e: Engine, events: seq<Event>, room: nat)
    requires forall event | event in events :: Possible(e, event)
    ensures PossibleRun(e, events, room)
    decreases |events|
  {
    if events != [] {
      assert events[0] in events;
      StepSize(e, events[0], room);
      forall event | event in events[1..] ensures Possible(Step(e, events[0], room), event) {
        assert event in events;
      }
      AllPossible(Step(e, events[0], room), events[1..], room);
    }
  }

  /** Whenever all variables have been sampled, the last result told to a set
      alert is that of its condition on the current values. */
  ghost predicate UpToDate(a: AlertState, values: Readings) {
    a.state.isSet ==> a.state.last == (Ready(values) && EvalCnf(a.formula, values))
  }

  ghost predicate Fits(a: AlertState, id: nat) {
    && a.state.Valid()
    && Paired(a.lit) && OpenLed(a.lit) == Showing(a.state, a.setting)
    && if a.state.isSet then a.state.alertId == id && a.formula != []
       else a.setting == SILENT && a.formula == []
  }

  ghost predicate AlertOk(a: AlertState, id: nat, values: Readings) {
    Fits(a, id) && UpToDate(a, values)
  }

  ghost predicate Invariant(e: Engine) {
    forall i | 0 <= i < |e.alerts| :: AlertOk(e.alerts[i], i, e.values)
  }

  /** Whatever a raiser is told, its LED commands stay in accord with it. */
  lemma ToldLights(a: AlertState, input: Input)
    requires a.state.Valid() && a.state.Accepts(input)
    requires Paired(a.lit) && OpenLed(a.lit) == Showing(a.state, a.setting)
    ensures Paired(a.Told(input).lit) && OpenLed(a.Told(input).lit) == Showing(a.state.Step(input), a.setting)
  {
    hide Paired, OpenLed, Debouncer.Step, Debouncer.Emits, Notifications;
    StepNotifies(a.state, input);
    LitFollows(a.lit, a.setting.led, a.state.raised, a.state.Step(input).raised);
  }

  /** A raiser that is told its last result again does nothing. */
  lemma ToldAgain(a: AlertState)
    requires a.state.Valid() && a.state.isSet
    ensures a.Told(SetResult(a.state.last)) == a
  {
  }

  /** Evaluating twice is evaluating once. */
  lemma EvaluatedTwice(a: AlertState, id: nat, values: Readings)
    requires Fits(a, id)
    ensures a.Evaluated(values).Evaluated(values) == a.Evaluated(values) && Fits(a.Evaluated(values), id)
  {
    hide EvalCnf, Paired, OpenLed;
    if a.state.isSet {
      ToldLights(a, SetResult(EvalCnf(a.formula, values)));
    }
  }

  /** As long as the verdict stays the same there is nothing to do. */
  lemma SameVerdict(a: AlertState, id: nat, before: Readings, values: Readings)
    requires AlertOk(a, id, before) && Ready(before)
    requires a.state.isSet ==> EvalCnf(a.formula, before) == EvalCnf(a.formula, values)
    ensures a.Evaluated(values) == a
  {
  }

  lemma EvaluatedIsOk(a: AlertState, id: nat, before: Readings, values: Readings)
    requires AlertOk(a, id, before) && Ready(values)
    ensures AlertOk(a.Evaluated(values), id, values)
  {
    hide EvalCnf, Paired, OpenLed;
    if a.state.isSet {
      ToldLights(a, SetResult(EvalCnf(a.formula, values)));
    }
  }

  lemma AcceptableStates(m: Message, n: nat)
    requires Acceptable(m, n)
    ensures KnownOperators(m.groups) && Stated(m.groups) != []
  {
    var g :| g in m.groups && g != [];
    StatedNotEmpty(m.groups, g);
  }

  lemma {:induction false} StatedNotEmpty(groups: seq<seq<WireRequirement>>, g: seq<WireRequirement>)
    requires KnownOperators(groups) && g in groups && g != []
    ensures Stated(groups) != []
  {
    if groups[0] == [] {
      StatedNotEmpty(groups[1..], g);
    }
  }

  lemma AddedKeeps(e: Engine, m: Message)
    requires Invariant(e)
    ensures Invariant(Added(e, m))
  {
    hide Stated, EvalCnf, Paired, OpenLed;
    if Acceptable(m, |e.alerts|) && !e.alerts[m.alertId].state.isSet {
      AcceptableStates(m, |e.alerts|);
      var a0 := e.alerts[m.alertId].(setting := SettingOf(MessageParsers.Flatten(m)), formula := Stated(m.groups));
      var a := a0.Told(SetAlert(m.alertId, m.warmupMs, m.cooldownMs));
      ToldLights(a0, SetAlert(m.alertId, m.warmupMs, m.cooldownMs));
      var nothing: Readings := map[];
      assert Temperature !in nothing;
      if Ready(e.values) {
        EvaluatedIsOk(a, m.alertId, nothing, e.values);
      }
    }
  }

  lemma RemovedKeeps(e: Engine, id: nat)
    requires Invariant(e)
    ensures Invariant(Removed(e, id))
  {
    hide EvalCnf, Paired, OpenLed;
    if id < |e.alerts| && e.alerts[id].state.isSet {
      assert AlertOk(e.alerts[id], id, e.values);
      ToldLights(e.alerts[id].(setting := e.alerts[id].setting.(connectivity := false)), UnsetAlert);
    }
  }

  lemma StepKeeps(e: Engine, event: Event, room: nat)
    requires Invariant(e) && Possible(e, event)
    ensures Invariant(Step(e, event, room))
  {
    hide EvalCnf, Acceptable, Added, Removed, Parse, Paired, OpenLed;
    match event {
      case Sample(v, x) =>
        var values := e.values[v := x];
        if Ready(values) {
          forall i | 0 <= i < |e.alerts| ensures AlertOk(e.alerts[i].Evaluated(values), i, values) {
            EvaluatedIsOk(e.alerts[i], i, e.values, values);
          }
        } else {
          assert !Ready(e.values);
        }
      case Receive(bytes) =>
        if |bytes| == 2 && bytes[0] == 1 {
          RemovedKeeps(e, bytes[1]);
        }
        if |bytes| > 0 && bytes[0] == 2 {
          match Parse(bytes[1..], room) {
            case None =>
            case Some(m) => AddedKeeps(e, m);
          }
        }
      case TimerExpired(id, timer) => ToldLights(e.alerts[id], Expired(timer));
      case _ =>
    }
  }

  /** In every run, from any number of alerts and for any events. */
  lemma {:induction false} RunKeeps(e: Engine, events: seq<Event>, room: nat)
    requires Invariant(e) && PossibleRun(e, events, room)
    ensures Invariant(Run(e, events, room))
    decreases |events|
  {
    if events != [] {
      StepKeeps(e, events[0], room);
      RunKeeps(Step(e, events[0], room), events[1..], room);
    }
  }

  lemma EveryReachableIsUpToDate(n: nat, events: seq<Event>, room: nat)
    requires PossibleRun(Initially(n), events, room)
    ensures forall i | 0 <= i < |Run(Initially(n), events, room).alerts| ::
              UpToDate(Run(Initially(n), events, room).alerts[i], Run(Initially(n), events, room).values)
  {
    RunKeeps(Initially(n), events, room);
    var e := Run(Initially(n), events, room);
    assert forall i | 0 <= i < |e.alerts| :: AlertOk(e.alerts[i], i, e.values);
  }

  // ---- what the notifiers are told, and in which order ----

  /** What the notifiers are told when the raiser of alert `id` gets an input. */
  function NoticesOf(a: AlertState, id: byte, input: Input): (r: seq<Notice>)
    requires a.state.Accepts(input)
  {
    var notes := Notifications(a.state.Emits(input));
    seq(|notes|, k requires 0 <= k < |notes| => Notice(id, a.setting, notes[k]))
  }

  lemma NoticesAre(a: AlertState, id: byte, input: Input)
    requires a.state.Valid() && a.state.Accepts(input)
    ensures var notes := Notifications(a.state.Emits(input));
            |notes| <= 1 && NoticesOf(a, id, input) == if notes == [] then [] else [Notice(id, a.setting, notes[0])]
    ensures a.state.Step(input).raised == a.state.raised ==> NoticesOf(a, id, input) == []
  {
    StepNotifies(a.state, input);
  }

  /** Setting an alert is not notified. */
  lemma SettingIsQuiet(a: AlertState, id: byte, warmupMs: uint32, cooldownMs: uint32)
    requires !a.state.isSet
    ensures NoticesOf(a, id, SetAlert(id, warmupMs, cooldownMs)) == []
  {
    var emitted := a.state.Emits(SetAlert(id, warmupMs, cooldownMs));
    assert Notifications(emitted) == [] by {
      if |emitted| == 2 {
        assert emitted == [emitted[0]] + [emitted[1]];
        NotificationsConcat([emitted[0]], [emitted[1]]);
      }
    }
  }

  function VerdictNotices(a: AlertState, id: byte, values: Readings): seq<Notice> {
    if a.state.isSet then NoticesOf(a, id, SetResult(EvalCnf(a.formula, values))) else []
  }

  /** The alerts are evaluated in this order. */
  function NoticesFor(alerts: seq<AlertState>, values: Readings, order: seq<int>): seq<Notice> {
    if order == [] then []
    else
      var i := order[|order| - 1];
      NoticesFor(alerts, values, order[..|order| - 1]) +
      if 0 <= i < |alerts| && i < TWO_TO_THE_8 then VerdictNotices(alerts[i], i, values) else []
  }

  function RemovedNotices(e: Engine, id: byte): seq<Notice> {
    if id >= |e.alerts| || !e.alerts[id].state.isSet then []
    else NoticesOf(e.alerts[id].(setting := e.alerts[id].setting.(connectivity := false)), id, UnsetAlert)
  }

  ghost function AddedNotices(e: Engine, m: Message): seq<Notice> {
    if !Acceptable(m, |e.alerts|) || e.alerts[m.alertId].state.isSet || !Ready(e.values) then []
    else
      VerdictNotices(Armed(e.alerts[m.alertId], MessageParsers.Flatten(m), Stated(m.groups)), m.alertId, e.values)
  }

  /** What the notifiers are told during an event. A sample evaluates alerts in
      `order`; any other event concerns one alert. */
  ghost function Notices(e: Engine, event: Event, order: seq<int>, room: nat): seq<Notice>
    requires Possible(e, event)
  {
    match event
    case Sample(v, x) => NoticesFor(e.alerts, e.values[v := x], order)
    case Receive(bytes) =>
      if bytes == [] then []
      else (
        match bytes[0]
        case 1 => if |bytes| == 2 then RemovedNotices(e, bytes[1]) else []
        case 2 => (match Parse(bytes[1..], room) case None => [] case Some(m) => AddedNotices(e, m))
        case _ => [])
    case TimerExpired(id, timer) => if id < TWO_TO_THE_8 then NoticesOf(e.alerts[id], id, Expired(timer)) else []
    case _ => []
  }

  // ---- the life of one alert ----

  /** What the raiser of alert `i` is told during an event. */
  ghost function InputsAt(e: Engine, event: Event, i: nat, room: nat): seq<Input>
    requires Possible(e, event) && i < |e.alerts|
  {
    var a := e.alerts[i];
    match event
    case Sample(v, x) =>
      var values := e.values[v := x];
      if Ready(values) && a.state.isSet then [SetResult(EvalCnf(a.formula, values))] else []
    case Receive(bytes) =>
      if bytes == [] then []
      else if bytes[0] == 1 then if |bytes| == 2 && bytes[1] == i && a.state.isSet then [UnsetAlert] else []
      else if bytes[0] == 2 && Parse(bytes[1..], room).Some? then InputsOfAdd(e, Parse(bytes[1..], room).value, i)
      else []
    case TimerExpired(id, timer) => if id == i then [Expired(timer)] else []
    case _ => []
  }

  ghost function InputsOfAdd(e: Engine, m: Message, i: nat): seq<Input>
    requires i < |e.alerts|
  {
    if m.alertId != i || !Acceptable(m, |e.alerts|) || e.alerts[i].state.isSet then []
    else
      [SetAlert(m.alertId, m.warmupMs, m.cooldownMs)]
      + if Ready(e.values) then [SetResult(EvalCnf(Stated(m.groups), e.values))] else []
  }

  /** ... and during a run. */
  ghost function InputsOf(e: Engine, events: seq<Event>, i: nat, room: nat): seq<Input>
    requires PossibleRun(e, events, room) && i < |e.alerts|
    decreases |events|
  {
    if events == [] then []
    else
      StepSize(e, events[0], room);
      InputsAt(e, events[0], i, room) + InputsOf(Step(e, events[0], room), events[1..], i, room)
  }

  lemma {:induction false} RunConcat(d: Debouncer, a: seq<Input>, b: seq<Input>)
    requires Accepted(d, a) && Accepted(Raising.Run(d, a), b)
    ensures Accepted(d, a + b)
    ensures Raising.Run(d, a + b) == Raising.Run(Raising.Run(d, a), b)
    ensures Log(d, a + b) == Log(d, a) + Log(Raising.Run(d, a), b)
    decreases |a|
  {
    if a == [] {
      assert a + b == b;
    } else {
      assert (a + b)[1..] == a[1..] + b;
      RunConcat(d.Step(a[0]), a[1..], b);
    }
  }

  lemma ToldOnce(a: AlertState, input: Input)
    requires a.state.Accepts(input)
    ensures Accepted(a.state, [input]) && Raising.Run(a.state, [input]) == a.Told(input).state
    ensures a.Told(input).log == a.log + Log(a.state, [input])
  {
  }

  /** A step tells an alert its inputs and does nothing else to its raiser. */
  lemma StepTells(e: Engine, event: Event, i: nat, room: nat)
    requires Possible(e, event) && i < |e.alerts|
    ensures |Step(e, event, room).alerts| == |e.alerts|
    ensures var a, inputs := e.alerts[i], InputsAt(e, event, i, room);
            && Accepted(a.state, inputs)
            && Step(e, event, room).alerts[i].state == Raising.Run(a.state, inputs)
            && Step(e, event, room).alerts[i].log == a.log + Log(a.state, inputs)
  {
    hide EvalCnf, Acceptable, Parse, Stated, Accepted, Log, Raising.Run;
    var a, inputs := e.alerts[i], InputsAt(e, event, i, room);
    NothingTold(a);
    if event.Receive? && |event.bytes| > 0 && event.bytes[0] == 2 && Parse(event.bytes[1..], room).Some? {
      AddTells(e, Parse(event.bytes[1..], room).value, i);
    } else if |inputs| == 1 {
      if inputs == [UnsetAlert] {
        ToldOnce(a.(setting := a.setting.(connectivity := false)), UnsetAlert);
      } else {
        ToldOnce(a, inputs[0]);
      }
    }
  }

  lemma NothingTold(a: AlertState)
    ensures Accepted(a.state, []) && Raising.Run(a.state, []) == a.state && a.log == a.log + Log(a.state, [])
  {
  }

  lemma AddTells(e: Engine, m: Message, i: nat)
    requires i < |e.alerts|
    ensures |Added(e, m).alerts| == |e.alerts|
    ensures var a, inputs := e.alerts[i], InputsOfAdd(e, m, i);
            && Accepted(a.state, inputs)
            && Added(e, m).alerts[i].state == Raising.Run(a.state, inputs)
            && Added(e, m).alerts[i].log == a.log + Log(a.state, inputs)
  {
    hide EvalCnf, Stated, Accepted, Log, Raising.Run;
    var a, inputs := e.alerts[i], InputsOfAdd(e, m, i);
    NothingTold(a);
    if inputs != [] {
      var b := a.(setting := SettingOf(MessageParsers.Flatten(m)), formula := Stated(m.groups));
      ToldOnce(b, inputs[0]);
      if |inputs| == 2 {
        assert inputs == [inputs[0]] + [inputs[1]];
        ToldOnce(b.Told(inputs[0]), inputs[1]);
        RunConcat(a.state, [inputs[0]], [inputs[1]]);
      } else {
        assert inputs == [inputs[0]];
      }
    }
  }

  /** The log of an alert is that of its raiser on some inputs it accepts. */
  lemma {:induction false} RunTells(e: Engine, events: seq<Event>, i: nat, room: nat)
    requires PossibleRun(e, events, room) && i < |e.alerts|
    ensures |Run(e, events, room).alerts| == |e.alerts|
    ensures var a, inputs := e.alerts[i], InputsOf(e, events, i, room);
            && Accepted(a.state, inputs)
            && Run(e, events, room).alerts[i].state == Raising.Run(a.state, inputs)
            && Run(e, events, room).alerts[i].log == a.log + Log(a.state, inputs)
    decreases |events|
  {
    hide Step, InputsAt, Accepted, Log, Raising.Run;
    var a := e.alerts[i];
    if events == [] {
      NothingTold(a);
    } else {
      StepTells(e, events[0], i, room);
      var next := Step(e, events[0], room);
      RunTells(next, events[1..], i, room);
      RunConcat(a.state, InputsAt(e, events[0], i, room), InputsOf(next, events[1..], i, room));
    }
  }

  /** In every run of the application, an alert's notifications are raised,
      silenced, raised, ...; and its timers are never started with period 0,
      never given a period while on, and on exactly while a change is due. */
  lemma AlertsAlternate(n: nat, events: seq<Event>, i: nat, room: nat)
    requires PossibleRun(Initially(n), events, room) && i < n
    ensures |Run(Initially(n), events, room).alerts| == n
    ensures var a := Run(Initially(n), events, room).alerts[i];
            var notes := Notifications(a.log);
            && (forall k | 0 <= k < |notes| :: notes[k] == (k % 2 == 0))
            && (|notes| % 2 == 0 <==> !a.state.raised)
            && AllowsAll(Timers({}, map[]), a.log)
            && Mirrors(a.state, AfterAll(Timers({}, map[]), a.log))
  {
    hide Accepted, Log, Raising.Run, Run, InputsOf, PossibleRun;
    RunTells(Initially(n), events, i, room);
    var inputs := InputsOf(Initially(n), events, i, room);
    assert [] + Log(INITIAL, inputs) == Log(INITIAL, inputs);
    NotificationsOfARaiser(inputs);
    TimersFollow(INITIAL, inputs, Timers({}, map[]));
  }

  /** From `a` to `b` there were at least as many notifications as commands for
      the LED. */
  ghost predicate Grows(a: AlertState, b: AlertState) {
    && a.lit <= b.lit && Notifications(a.log) <= Notifications(b.log)
    && |b.lit| - |a.lit| <= |Notifications(b.log)| - |Notifications(a.log)|
  }

  lemma ToldGrows(a: AlertState, input: Input)
    requires a.state.Accepts(input)
    ensures Grows(a, a.Told(input))
  {
    hide Debouncer.Step, Debouncer.Emits;
    NotificationsConcat(a.log, a.state.Emits(input));
  }

  lemma StepGrows(e: Engine, event: Event, i: nat, room: nat)
    requires Possible(e, event) && i < |e.alerts|
    ensures |Step(e, event, room).alerts| == |e.alerts| && Grows(e.alerts[i], Step(e, event, room).alerts[i])
  {
    hide EvalCnf, Acceptable, Parse, Stated, Debouncer.Step, Notifications;
    var a, inputs := e.alerts[i], InputsAt(e, event, i, room);
    if event.Receive? && |event.bytes| > 0 && event.bytes[0] == 2 && Parse(event.bytes[1..], room).Some? {
      AddGrows(e, Parse(event.bytes[1..], room).value, i);
    } else if |inputs| == 1 {
      if inputs == [UnsetAlert] {
        ToldGrows(a.(setting := a.setting.(connectivity := false)), UnsetAlert);
      } else {
        ToldGrows(a, inputs[0]);
      }
    }
  }

  lemma AddGrows(e: Engine, m: Message, i: nat)
    requires i < |e.alerts|
    ensures |Added(e, m).alerts| == |e.alerts| && Grows(e.alerts[i], Added(e, m).alerts[i])
  {
    hide EvalCnf, Stated, Notifications;
    var a, inputs := e.alerts[i], InputsOfAdd(e, m, i);
    if inputs != [] {
      var b := a.(setting := SettingOf(MessageParsers.Flatten(m)), formula := Stated(m.groups));
      ToldGrows(b, inputs[0]);
      if |inputs| == 2 {
        ToldGrows(b.Told(inputs[0]), inputs[1]);
      }
    }
  }

  /** An alert that is not notified gives no command for the LED. */
  lemma {:induction false} RunGrows(e: Engine, events: seq<Event>, i: nat, room: nat)
    requires PossibleRun(e, events, room) && i < |e.alerts|
    ensures |Run(e, events, room).alerts| == |e.alerts| && Grows(e.alerts[i], Run(e, events, room).alerts[i])
    decreases |events|
  {
    hide Step, Notifications;
    if events != [] {
      StepGrows(e, events[0], i, room);
      RunGrows(Step(e, events[0], room), events[1..], i, room);
    }
  }

  // ---- what a received alert means ----

  /** From the bytes to the verdict: the condition of an alert that is added
      holds exactly if every nonempty group of the message has a comparison
      that holds. */
  lemma ReceivedMeans(e: Engine, bytes: seq<byte>, room: nat)
    requires |bytes| > 0 && bytes[0] == 2 && Parse(bytes[1..], room).Some?
    requires var m := Parse(bytes[1..], room).value;
             Acceptable(m, |e.alerts|) && !e.alerts[m.alertId].state.isSet
    ensures var m := Parse(bytes[1..], room).value;
            var a := Received(e, bytes, room).alerts[m.alertId];
            && a.state.isSet && a.state.warmupMs == m.warmupMs && a.state.cooldownMs == m.cooldownMs
            && forall values ::
                 EvalCnf(a.formula, values) <==>
                 forall g | g in m.groups && g != [] ::
                   exists r :: r in g && r.variable in values &&
                     if r.operator == 0 then values[r.variable] >= r.value else values[r.variable] <= r.value
  {
    hide EvalCnf, Parse, Stated;
    var m := Parse(bytes[1..], room).value;
    AcceptableStates(m, |e.alerts|);
    forall values
      ensures EvalCnf(Stated(m.groups), values) <==> forall g | g in m.groups && g != [] :: GroupHolds(g, values)
    {
      StatedMeans(m.groups, values);
    }
  }

  /** The removal of a raised alert is not reported to the network. */
  lemma RemovalIsNotSent(e: Engine, id: nat)
    requires Invariant(e) && id < |e.alerts| && e.alerts[id].state.isSet
    ensures var a := Removed(e, id).alerts[id];
            && a.sent == e.alerts[id].sent && !a.state.isSet && !a.state.raised
            && Notifications(a.log) ==
               Notifications(e.alerts[id].log) + if e.alerts[id].state.raised then [false] else []
  {
    var a := e.alerts[id];
    assert AlertOk(a, id, e.values);
    StepNotifies(a.state, UnsetAlert);
    NotificationsConcat(a.log, a.state.Emits(UnsetAlert));
  }
}
