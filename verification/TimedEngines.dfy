/** The application in real time, as one of its alerts sees it: the raiser of
    the alert has timers of the platform, and whatever else happens may happen
    at any moment, the expiries of other alerts included. */
module TimedEngines {
  import opened Domain
  import opened Raising
  import TimedRaising
  import opened Wire
  import opened Validators
  import opened Engines

  /** From time `at` on the application was like this. `told` is how much the
      raiser had been told by then. */
  datatype Moment = Moment(at: nat, engine: Engine, told: nat)

  datatype World = World(engine: Engine, raiser: TimedRaising.State, moments: seq<Moment>) {
    function Seeing(engine: Engine, raiser: TimedRaising.State): World {
      World(engine, raiser, moments + [Moment(raiser.now, engine, |raiser.history|)])
    }
  }

  datatype Event =
    | Wait(ms: nat)
    /** Anything but an expiry of the alert's own timers. */
    | Occur(event: Engines.Event)
    | RunOut(timer: Timer)
    | Handle(expiry: TimedRaising.Expiry)

  predicate Possible(w: World, e: Event, id: nat) {
    id < |w.engine.alerts| &&
    match e
    case Wait(_) => true
    case Occur(event) => Engines.Possible(w.engine, event) && !(event.TimerExpired? && event.id == id)
    case RunOut(t) => TimedRaising.Possible(w.raiser, TimedRaising.RunOut(t))
    case Handle(x) => TimedRaising.Possible(w.raiser, TimedRaising.Handle(x))
  }

  function TellAll(s: TimedRaising.State, inputs: seq<Input>): TimedRaising.State
    decreases |inputs|
  {
    if inputs == [] || !TimedRaising.Possible(s, TimedRaising.Tell(inputs[0])) then s
    else TellAll(TimedRaising.Step(s, TimedRaising.Tell(inputs[0])), inputs[1..])
  }

  ghost function Step(w: World, e: Event, id: nat, room: nat): World
    requires Possible(w, e, id)
  {
    match e
    case Wait(ms) => w.(raiser := TimedRaising.Step(w.raiser, TimedRaising.Wait(ms)))
    case Occur(event) =>
      w.Seeing(Engines.Step(w.engine, event, room), TellAll(w.raiser, InputsAt(w.engine, event, id, room)))
    case RunOut(t) => w.(raiser := TimedRaising.Step(w.raiser, TimedRaising.RunOut(t)))
    case Handle(x) =>
      w.Seeing(Engines.Step(w.engine, TimerExpired(id, x.timer), room),
               TimedRaising.Step(w.raiser, TimedRaising.Handle(x)))
  }

  /** No expiry of an earlier start is handled after a later start. */
  predicate Fresh(w: World, e: Event) {
    e.Handle? ==> w.raiser.IsLatest(e.expiry)
  }

  function Initially(n: nat): World {
    World(Engines.Initially(n), TimedRaising.INITIALLY, [Moment(0, Engines.Initially(n), 0)])
  }

  ghost predicate PossibleRun(w: World, events: seq<Event>, id: nat, room: nat)
    decreases |events|
  {
    events == [] || (Possible(w, events[0], id) && PossibleRun(Step(w, events[0], id, room), events[1..], id, room))
  }

  ghost function Run(w: World, events: seq<Event>, id: nat, room: nat): World
    requires PossibleRun(w, events, id, room)
    decreases |events|
  {
    if events == [] then w else Run(Step(w, events[0], id, room), events[1..], id, room)
  }

  // ---- what raiser and application have to do with each other ----

  /** The raiser remembers what it was told last. */
  ghost predicate Remembers(history: seq<TimedRaising.Stamped>, d: Debouncer) {
    history != [] && history[|history| - 1].input.SetResult? ==>
      d.isSet && history[|history| - 1].input == SetResult(d.last)
  }

  ghost predicate MomentOk(m: Moment, history: seq<TimedRaising.Stamped>, id: nat) {
    && m.told <= |history| && id < |m.engine.alerts| && Engines.Invariant(m.engine)
    && Remembers(history[..m.told], m.engine.alerts[id].state)
  }

  /** The raiser was told entry `j` of its history when moment `k` began. */
  ghost predicate Marks(moments: seq<Moment>, k: nat, history: seq<TimedRaising.Stamped>, j: nat)
    requires j < |history|
  {
    k < |moments| && moments[k].told > j && moments[k].at == history[j].at
  }

  ghost predicate Marked(moments: seq<Moment>, history: seq<TimedRaising.Stamped>, j: nat)
    requires j < |history|
  {
    exists k: nat :: Marks(moments, k, history, j)
  }

  ghost predicate MomentsOk(moments: seq<Moment>, history: seq<TimedRaising.Stamped>, id: nat) {
    && (forall k | 0 <= k < |moments| :: MomentOk(moments[k], history, id))
    && (forall k, l | 0 <= k <= l < |moments| :: moments[k].told <= moments[l].told)
    && (forall j | 0 <= j < |history| :: Marked(moments, history, j))
  }

  ghost predicate Invariant(w: World, id: nat) {
    && id < |w.engine.alerts| && Engines.Invariant(w.engine)
    && TimedRaising.Invariant(w.raiser) && w.raiser.d == w.engine.alerts[id].state
    && Remembers(w.raiser.history, w.raiser.d)
    && MomentsOk(w.moments, w.raiser.history, id)
  }

  /** `more` follows `history`, all of it at time `now`. */
  ghost predicate Continues(history: seq<TimedRaising.Stamped>, more: seq<TimedRaising.Stamped>, now: nat) {
    history <= more && forall j | |history| <= j < |more| :: more[j].at == now
  }

  lemma {:induction false} TellAllKeeps(s: TimedRaising.State, inputs: seq<Input>)
    requires TimedRaising.Invariant(s) && Accepted(s.d, inputs) && Remembers(s.history, s.d)
    requires forall input | input in inputs :: !input.Expired?
    ensures var s' := TellAll(s, inputs);
            && TimedRaising.Invariant(s') && s'.d == Raising.Run(s.d, inputs) && Remembers(s'.history, s'.d)
            && s'.now == s.now && Continues(s.history, s'.history, s.now)
    decreases |inputs|
  {
    hide TimedRaising.Invariant, TimedRaising.Step;
    if inputs != [] {
      var s1 := TellOne(s, inputs[0]);
      assert forall input | input in inputs[1..] :: input in inputs;
      TellAllKeeps(s1, inputs[1..]);
    }
  }

  lemma TellOne(s: TimedRaising.State, input: Input) returns (s1: TimedRaising.State)
    requires TimedRaising.Invariant(s) && s.d.Accepts(input) && Remembers(s.history, s.d) && !input.Expired?
    ensures TimedRaising.Possible(s, TimedRaising.Tell(input)) && s1 == TimedRaising.Step(s, TimedRaising.Tell(input))
    ensures TimedRaising.Invariant(s1) && s1.d == s.d.Step(input) && Remembers(s1.history, s1.d)
    ensures s1.now == s.now && s1.history == s.history + [TimedRaising.Stamped(s.now, input)]
  {
    s1 := TimedRaising.Step(s, TimedRaising.Tell(input));
    TimedRaising.TellKeeps(s, input);
    TimedRaising.Driven(s, input);
  }

  lemma MomentsFollow(moments: seq<Moment>, history: seq<TimedRaising.Stamped>, id: nat, m: Moment,
                      more: seq<TimedRaising.Stamped>)
    requires MomentsOk(moments, history, id) && Continues(history, more, m.at)
    requires MomentOk(m, more, id) && m.told == |more|
    ensures MomentsOk(moments + [m], more, id)
  {
    var moments' := moments + [m];
    forall k | 0 <= k < |moments'| ensures MomentOk(moments'[k], more, id) {
      if k < |moments| {
        assert MomentOk(moments[k], history, id);
        assert more[..moments[k].told] == history[..moments[k].told];
      }
    }
    forall j | 0 <= j < |more| ensures Marked(moments', more, j) {
      if j < |history| {
        assert Marked(moments, history, j);
        var k: nat :| Marks(moments, k, history, j);
        assert Marks(moments', k, more, j);
      } else {
        assert Marks(moments', |moments|, more, j);
      }
    }
  }

  lemma SeeingKeeps(w: World, engine: Engine, raiser: TimedRaising.State, id: nat)
    requires Invariant(w, id) && Engines.Invariant(engine) && id < |engine.alerts|
    requires TimedRaising.Invariant(raiser) && raiser.d == engine.alerts[id].state
    requires Remembers(raiser.history, raiser.d) && Continues(w.raiser.history, raiser.history, raiser.now)
    ensures Invariant(w.Seeing(engine, raiser), id)
  {
    hide TimedRaising.Invariant, Engines.Invariant, MomentsOk;
    var m := Moment(raiser.now, engine, |raiser.history|);
    assert raiser.history[..m.told] == raiser.history;
    MomentsFollow(w.moments, w.raiser.history, id, m, raiser.history);
  }

  /** What an alert is told apart from its own expiries. */
  lemma NotTimers(e: Engine, event: Engines.Event, id: nat, room: nat)
    requires Engines.Possible(e, event) && id < |e.alerts| && !(event.TimerExpired? && event.id == id)
    ensures var inputs := InputsAt(e, event, id, room);
            && (forall input | input in inputs :: !input.Expired?)
            && (inputs == [] || |inputs| == 1 || (|inputs| == 2 && inputs[0].SetAlert? && inputs[1].SetResult?))
  {
    hide Parse, Acceptable, EvalCnf, Stated;
  }

  lemma StepKeeps(w: World, e: Event, id: nat, room: nat)
    requires Invariant(w, id) && Possible(w, e, id)
    ensures Invariant(Step(w, e, id, room), id)
  {
    hide TimedRaising.Invariant, Engines.Invariant, Engines.Step, MomentsOk, InputsAt, Accepted, Raising.Run;
    match e {
      case Wait(ms) => TimedRaising.OtherEventKeeps(w.raiser, TimedRaising.Wait(ms));
      case Occur(event) =>
        var inputs := InputsAt(w.engine, event, id, room);
        Engines.StepKeeps(w.engine, event, room);
        StepTells(w.engine, event, id, room);
        NotTimers(w.engine, event, id, room);
        TellAllKeeps(w.raiser, inputs);
        SeeingKeeps(w, Engines.Step(w.engine, event, room), TellAll(w.raiser, inputs), id);
      case RunOut(t) => TimedRaising.OtherEventKeeps(w.raiser, TimedRaising.RunOut(t));
      case Handle(x) =>
        var event := TimerExpired(id, x.timer);
        Engines.StepKeeps(w.engine, event, room);
        TimedRaising.OtherEventKeeps(w.raiser, TimedRaising.Handle(x));
        ExpiryTells(w.engine, id, x.timer, room);
        SeeingKeeps(w, Engines.Step(w.engine, event, room), TimedRaising.Step(w.raiser, TimedRaising.Handle(x)), id);
    }
  }

  lemma ExpiryTells(e: Engine, id: nat, timer: Timer, room: nat)
    requires id < |e.alerts|
    ensures |Engines.Step(e, TimerExpired(id, timer), room).alerts| == |e.alerts|
    ensures Engines.Step(e, TimerExpired(id, timer), room).alerts[id].state == e.alerts[id].state.Step(Expired(timer))
  {
  }

  lemma {:induction false} RunKeeps(w: World, events: seq<Event>, id: nat, room: nat)
    requires Invariant(w, id) && PossibleRun(w, events, id, room)
    ensures Invariant(Run(w, events, id, room), id)
    decreases |events|
  {
    hide Invariant, Step;
    if events != [] {
      StepKeeps(w, events[0], id, room);
      RunKeeps(Step(w, events[0], id, room), events[1..], id, room);
    }
  }

  // ---- debouncing from end to end ----

  /** In this state of the application the alert is set and its verdict, of its
      condition on the current values, is `b`. */
  ghost predicate Says(e: Engine, id: nat, b: bool) {
    && id < |e.alerts| && e.alerts[id].state.isSet
    && (Ready(e.values) && EvalCnf(e.alerts[id].formula, e.values)) == b
  }

  /** For at least the last `ms` the verdict was `b` all the time. */
  ghost predicate SaidThroughout(w: World, id: nat, b: bool, ms: nat) {
    exists k: nat :: SaidSince(w, k, id, b) && w.moments[k].at + ms <= w.raiser.now
  }

  ghost predicate SaidSince(w: World, k: nat, id: nat, b: bool) {
    k < |w.moments| && forall l | k <= l < |w.moments| :: Says(w.moments[l].engine, id, b)
  }

  /** What the raiser was told is what the condition said. */
  lemma LastedIsSaid(w: World, id: nat, b: bool, ms: nat)
    requires Invariant(w, id) && TimedRaising.Lasted(w.raiser.history, w.raiser.now, b, ms)
    ensures SaidThroughout(w, id, b, ms)
  {
    hide TimedRaising.Invariant, EvalCnf;
    var history := w.raiser.history;
    var i: nat :| TimedRaising.OnlyResults(history, i, b) && history[i].at + ms <= w.raiser.now;
    assert Marked(w.moments, history, i);
    var k: nat :| Marks(w.moments, k, history, i);
    forall l | k <= l < |w.moments| ensures Says(w.moments[l].engine, id, b) {
      var m := w.moments[l];
      assert MomentOk(m, history, id) && w.moments[k].told <= m.told;
      assert history[m.told - 1].input == SetResult(b);
      assert AlertOk(m.engine.alerts[id], id, m.engine.values);
    }
    assert SaidSince(w, k, id, b);
  }

  lemma ToldTimely(s: TimedRaising.State, inputs: seq<Input>)
    requires TimedRaising.Invariant(s) && Accepted(s.d, inputs) && Remembers(s.history, s.d)
    requires forall input | input in inputs :: !input.Expired? && !input.UnsetAlert?
    requires |inputs| <= 1 || (|inputs| == 2 && inputs[0].SetAlert?)
    requires TellAll(s, inputs).d.raised != s.d.raised
    ensures var s' := TellAll(s, inputs);
            TimedRaising.Lasted(s'.history, s'.now, s'.d.raised, if s'.d.raised then s'.d.warmupMs else s'.d.cooldownMs)
  {
    hide TimedRaising.Invariant, TimedRaising.Step, TimedRaising.Lasted;
    var s1 := TellOne(s, inputs[0]);
    if |inputs| == 1 {
      assert TellAll(s1, inputs[1..]) == s1;
      TimedRaising.ChangeIsTimely(s, TimedRaising.Tell(inputs[0]));
    } else {
      assert inputs[1..][0] == inputs[1] && inputs[1] in inputs && inputs[1..][1..] == [];
      var s2 := TellOne(s1, inputs[1]);
      assert TellAll(s2, []) == s2 && TellAll(s1, inputs[1..]) == s2;
      TimedRaising.ChangeIsTimely(s1, TimedRaising.Tell(inputs[1]));
    }
  }

  /** The alert changes its state in this step and is still set then. */
  ghost predicate Changes(w: World, e: Event, id: nat, room: nat)
    requires Possible(w, e, id)
  {
    var w' := Step(w, e, id, room);
    w'.raiser.d.raised != w.raiser.d.raised && w'.raiser.d.isSet
  }

  lemma ChangeIsSaid(w: World, e: Event, id: nat, room: nat)
    requires Invariant(w, id) && Possible(w, e, id) && Fresh(w, e) && Changes(w, e, id, room)
    ensures var w' := Step(w, e, id, room);
            var d := w'.raiser.d;
            SaidThroughout(w', id, d.raised, if d.raised then d.warmupMs else d.cooldownMs)
  {
    hide TimedRaising.Invariant, Engines.Invariant, Engines.Step, MomentsOk, InputsAt, Accepted, Raising.Run;
    hide TimedRaising.Lasted;
    StepKeeps(w, e, id, room);
    var w' := Step(w, e, id, room);
    var b := w'.raiser.d.raised;
    match e {
      case Wait(_) =>
      case RunOut(_) =>
      case Occur(event) =>
        var inputs := InputsAt(w.engine, event, id, room);
        StepTells(w.engine, event, id, room);
        NotTimers(w.engine, event, id, room);
        TellAllKeeps(w.raiser, inputs);
        StaysSet(w.raiser.d, inputs);
        ToldTimely(w.raiser, inputs);
        LastedIsSaid(w', id, b, if b then w'.raiser.d.warmupMs else w'.raiser.d.cooldownMs);
      case Handle(x) =>
        TimedRaising.ChangeIsTimely(w.raiser, TimedRaising.Handle(x));
        LastedIsSaid(w', id, b, if b then w'.raiser.d.warmupMs else w'.raiser.d.cooldownMs);
    }
  }

  lemma StaysSet(d: Debouncer, inputs: seq<Input>)
    requires Accepted(d, inputs) && Raising.Run(d, inputs).isSet
    requires |inputs| <= 1 || (|inputs| == 2 && inputs[0].SetAlert? && inputs[1].SetResult?)
    ensures UnsetAlert !in inputs
  {
  }

  /** Debouncing from end to end: in a run of the application, a fresh event
      only raises an alert that stays set if its condition was true on the
      current values throughout its warmup period, and only silences it if it
      was false throughout its cooldown period. */
  lemma DebouncedEndToEnd(n: nat, before: seq<Event>, e: Event, id: nat, room: nat)
    requires id < n && PossibleRun(Initially(n), before, id, room)
    requires var w := Run(Initially(n), before, id, room);
             Possible(w, e, id) && Fresh(w, e) && Changes(w, e, id, room)
    ensures var w' := Step(Run(Initially(n), before, id, room), e, id, room);
            var raised := w'.engine.alerts[id].state.raised;
            && id < |w'.engine.alerts|
            && var d := w'.engine.alerts[id].state;
               SaidThroughout(w', id, raised, if raised then d.warmupMs else d.cooldownMs)
  {
    hide Invariant, Run, PossibleRun, Initially, Step;
    Begins(n, id);
    RunKeeps(Initially(n), before, id, room);
    var w := Run(Initially(n), before, id, room);
    StepKeeps(w, e, id, room);
    InvariantIs(Step(w, e, id, room), id);
    ChangeIsSaid(w, e, id, room);
  }

  // ---- the other half: a lasting verdict takes effect ----

  /** The raiser of the alert has been told `b` last. */
  predicate Told(e: Engine, id: nat, b: bool) {
    id < |e.alerts| && e.alerts[id].state.isSet && e.alerts[id].state.last == b
  }

  /** The timer of a due change was started when moment `m` began, before which
      the raiser had been told something else. */
  ghost predicate Awaited(moments: seq<Moment>, raiser: TimedRaising.State, id: nat, m: nat) {
    var timer := TimerToward(raiser.d.last);
    var starts := raiser.Of(timer).starts;
    && m < |moments| && (m > 0 ==> !Told(moments[m - 1].engine, id, raiser.d.last))
    && starts != [] && starts[|starts| - 1] == TimedRaising.Start(moments[m].at, raiser.d.Period(timer))
  }

  ghost predicate InTime(moments: seq<Moment>, now: nat) {
    && (forall k, l | 0 <= k <= l < |moments| :: moments[k].at <= moments[l].at)
    && (forall k | 0 <= k < |moments| :: moments[k].at <= now)
  }

  ghost predicate Waits(w: World, id: nat) {
    && w.moments != [] && w.moments[|w.moments| - 1].engine == w.engine && InTime(w.moments, w.raiser.now)
    && TimedRaising.UnderWay(w.raiser)
    && (w.raiser.d.raised != w.raiser.d.last ==> exists m: nat :: Awaited(w.moments, w.raiser, id, m))
  }

  /** The change that was due in `s` is still due. */
  ghost predicate StaysDue(s: TimedRaising.State, s': TimedRaising.State) {
    var timer := TimerToward(s'.d.last);
    && s.d.raised != s.d.last && s.d.last == s'.d.last
    && s'.Of(timer).starts == s.Of(timer).starts && s.d.Period(timer) == s'.d.Period(timer)
  }

  /** Its timer has been started just now, since the raiser was told something
      else before. */
  ghost predicate NowDue(s: TimedRaising.State, s': TimedRaising.State) {
    var timer := TimerToward(s'.d.last);
    var starts := s'.Of(timer).starts;
    && !(s.d.isSet && s.d.last == s'.d.last)
    && starts != [] && starts[|starts| - 1] == TimedRaising.Start(s'.now, s'.d.Period(timer))
  }

  ghost predicate DueSince(s: TimedRaising.State, s': TimedRaising.State) {
    s'.d.raised != s'.d.last ==> StaysDue(s, s') || NowDue(s, s')
  }

  lemma TellOneDue(s: TimedRaising.State, input: Input)
    requires TimedRaising.Invariant(s) && TimedRaising.UnderWay(s) && s.d.Accepts(input) && !input.Expired?
    ensures DueSince(s, TimedRaising.Step(s, TimedRaising.Tell(input)))
    ensures TimedRaising.UnderWay(TimedRaising.Step(s, TimedRaising.Tell(input)))
  {
    TimedRaising.Driven(s, input);
    TimedRaising.StepUnderWay(s, TimedRaising.Tell(input));
  }

  lemma TellAllDue(s: TimedRaising.State, inputs: seq<Input>)
    requires TimedRaising.Invariant(s) && TimedRaising.UnderWay(s)
    requires Accepted(s.d, inputs) && Remembers(s.history, s.d)
    requires forall input | input in inputs :: !input.Expired?
    requires inputs == [] || |inputs| == 1 || (|inputs| == 2 && inputs[0].SetAlert? && inputs[1].SetResult?)
    ensures DueSince(s, TellAll(s, inputs)) && TimedRaising.UnderWay(TellAll(s, inputs))
  {
    hide TimedRaising.Invariant, TimedRaising.Step, TimedRaising.UnderWay;
    if inputs != [] {
      var s1 := TellOne(s, inputs[0]);
      TellOneDue(s, inputs[0]);
      if |inputs| == 1 {
        assert TellAll(s1, inputs[1..]) == s1;
      } else {
        assert inputs[1..][0] == inputs[1] && inputs[1] in inputs && inputs[1..][1..] == [];
        var s2 := TellOne(s1, inputs[1]);
        assert TellAll(s2, []) == s2 && TellAll(s1, inputs[1..]) == s2;
        TellOneDue(s1, inputs[1]);
        NewAlertIsQuiet(s, inputs[0]);
      }
    }
  }

  lemma NewAlertIsQuiet(s: TimedRaising.State, input: Input)
    requires TimedRaising.Invariant(s) && input.SetAlert? && s.d.Accepts(input)
    ensures !s.d.isSet && s.d.Step(input).raised == s.d.Step(input).last
  {
  }

  lemma SeeingWaits(w: World, engine: Engine, raiser: TimedRaising.State, id: nat)
    requires Invariant(w, id) && Waits(w, id) && TimedRaising.UnderWay(raiser) && DueSince(w.raiser, raiser)
    requires raiser.now == w.raiser.now
    ensures Waits(w.Seeing(engine, raiser), id)
  {
    hide TimedRaising.Invariant, Engines.Invariant, MomentsOk, TimedRaising.UnderWay;
    var w' := w.Seeing(engine, raiser);
    if raiser.d.raised != raiser.d.last {
      if StaysDue(w.raiser, raiser) {
        var m: nat :| Awaited(w.moments, w.raiser, id, m);
        assert Awaited(w'.moments, raiser, id, m);
      } else {
        assert Awaited(w'.moments, raiser, id, |w.moments|);
      }
    }
  }

  /** What happens to the raiser alone. */
  lemma RaiserWaits(w: World, e: TimedRaising.Event, id: nat)
    requires Invariant(w, id) && Waits(w, id) && TimedRaising.Possible(w.raiser, e) && (e.Wait? || e.RunOut?)
    ensures Waits(w.(raiser := TimedRaising.Step(w.raiser, e)), id)
  {
    hide TimedRaising.Invariant, Engines.Invariant, MomentsOk, TimedRaising.UnderWay;
    TimedRaising.StepUnderWay(w.raiser, e);
    var raiser := TimedRaising.Step(w.raiser, e);
    NoneTold(w.raiser, e);
    hide TimedRaising.Step;
    if raiser.d.raised != raiser.d.last {
      var m: nat :| Awaited(w.moments, w.raiser, id, m);
      assert Awaited(w.moments, raiser, id, m);
    }
  }

  lemma NoneTold(s: TimedRaising.State, e: TimedRaising.Event)
    requires TimedRaising.Possible(s, e) && (e.Wait? || e.RunOut?)
    ensures var s' := TimedRaising.Step(s, e);
            s'.d == s.d && s'.now >= s.now && forall t: Timer :: s'.Of(t).starts == s.Of(t).starts
  {
  }

  lemma HandleDue(s: TimedRaising.State, x: TimedRaising.Expiry)
    requires TimedRaising.UnderWay(s) && TimedRaising.Possible(s, TimedRaising.Handle(x))
    ensures DueSince(s, TimedRaising.Step(s, TimedRaising.Handle(x)))
    ensures TimedRaising.UnderWay(TimedRaising.Step(s, TimedRaising.Handle(x)))
  {
    TimedRaising.StepUnderWay(s, TimedRaising.Handle(x));
  }

  lemma StepWaits(w: World, e: Event, id: nat, room: nat)
    requires Invariant(w, id) && Waits(w, id) && Possible(w, e, id)
    ensures Waits(Step(w, e, id, room), id)
  {
    hide TimedRaising.Invariant, Engines.Invariant, Engines.Step, MomentsOk, InputsAt, Accepted, Raising.Run;
    hide TimedRaising.UnderWay, DueSince;
    match e {
      case Wait(ms) => RaiserWaits(w, TimedRaising.Wait(ms), id);
      case Occur(event) =>
        var inputs := InputsAt(w.engine, event, id, room);
        StepTells(w.engine, event, id, room);
        NotTimers(w.engine, event, id, room);
        TellAllKeeps(w.raiser, inputs);
        TellAllDue(w.raiser, inputs);
        SeeingWaits(w, Engines.Step(w.engine, event, room), TellAll(w.raiser, inputs), id);
      case RunOut(t) => RaiserWaits(w, TimedRaising.RunOut(t), id);
      case Handle(x) =>
        HandleDue(w.raiser, x);
        SeeingWaits(w, Engines.Step(w.engine, TimerExpired(id, x.timer), room),
                    TimedRaising.Step(w.raiser, TimedRaising.Handle(x)), id);
    }
  }

  lemma {:induction false} RunWaits(w: World, events: seq<Event>, id: nat, room: nat)
    requires Invariant(w, id) && Waits(w, id) && PossibleRun(w, events, id, room)
    ensures Invariant(Run(w, events, id, room), id) && Waits(Run(w, events, id, room), id)
    decreases |events|
  {
    hide Invariant, Waits, Step;
    if events != [] {
      StepKeeps(w, events[0], id, room);
      StepWaits(w, events[0], id, room);
      RunWaits(Step(w, events[0], id, room), events[1..], id, room);
    }
  }

  /** What the condition says is what the raiser was told. */
  lemma SaidIsTold(w: World, id: nat, l: nat, b: bool)
    requires Invariant(w, id) && l < |w.moments| && Says(w.moments[l].engine, id, b)
    ensures Told(w.moments[l].engine, id, b)
  {
    var m := w.moments[l];
    assert MomentOk(m, w.raiser.history, id);
    assert AlertOk(m.engine.alerts[id], id, m.engine.values);
  }

  lemma Begins(n: nat, id: nat)
    requires id < n
    ensures Invariant(Initially(n), id) && Waits(Initially(n), id)
  {
  }

  lemma InvariantIs(w: World, id: nat)
    requires Invariant(w, id)
    ensures id < |w.engine.alerts| && w.raiser.d == w.engine.alerts[id].state
  {
  }

  lemma SaidTakesEffect(w: World, id: nat, b: bool)
    requires Invariant(w, id) && Waits(w, id) && TimedRaising.Settled(w.raiser)
    requires SaidThroughout(w, id, b, if b then w.raiser.d.warmupMs else w.raiser.d.cooldownMs)
    ensures w.raiser.d.raised == b
  {
    hide TimedRaising.Invariant, Engines.Invariant, MomentsOk, EvalCnf;
    var t := TimerToward(b);
    var k: nat :| SaidSince(w, k, id, b) && w.moments[k].at + w.raiser.d.Period(t) <= w.raiser.now;
    SaidIsTold(w, id, |w.moments| - 1, b);
    if w.raiser.d.raised != b {
      var m: nat :| Awaited(w.moments, w.raiser, id, m);
      if m > k {
        SaidIsTold(w, id, m - 1, b);
        assert false;
      }
      TimedRaising.OverdueHappens(w.raiser, t);
      assert false;
    }
  }

  /** Debouncing from end to end, the other half: in any run of the application,
      when the verdict on an alert that is set has been `b` throughout the period
      toward `b`, and the platform and the queue are not behind, the alert is
      raised if `b` and silenced if not. */
  lemma LastingTakesEffect(n: nat, events: seq<Event>, id: nat, room: nat, b: bool)
    requires id < n && PossibleRun(Initially(n), events, id, room)
    requires var w := Run(Initially(n), events, id, room);
             && id < |w.engine.alerts| && TimedRaising.Settled(w.raiser)
             && var d := w.engine.alerts[id].state;
                SaidThroughout(w, id, b, if b then d.warmupMs else d.cooldownMs)
    ensures Run(Initially(n), events, id, room).engine.alerts[id].state.raised == b
  {
    hide Invariant, Waits, Run, PossibleRun, Initially;
    Begins(n, id);
    RunWaits(Initially(n), events, id, room);
    InvariantIs(Run(Initially(n), events, id, room), id);
    SaidTakesEffect(Run(Initially(n), events, id, room), id, b);
  }
}
