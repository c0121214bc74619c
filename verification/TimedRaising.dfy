/** The raiser in real time. A timer that runs out only queues its expiry
    (src/interfaces/implementations/eas_timer/zephyr/eas_timer.c:31-38), and
    stopping it does not take queued expiries back, so the raiser may handle a
    stale expiry, one of an earlier start than the latest. */
module TimedRaising {
  import opened Raising

  datatype Start = Start(at: nat, periodMs: nat)

  /** A timer of the platform: all its starts so far, the last one running or
      not. */
  datatype Clockwork = Clockwork(starts: seq<Start>, running: bool)

  /** A queued expiry of the start with index `start`. */
  datatype Expiry = Expiry(timer: Timer, start: nat)

  datatype Stamped = Stamped(at: nat, input: Input)

  datatype State = State(
    now: nat,
    d: Debouncer,
    warmup: Clockwork,
    cooldown: Clockwork,
    queue: multiset<Expiry>,
    /** What the application told the raiser, and when. */
    history: seq<Stamped>)
  {
    function Of(timer: Timer): Clockwork {
      if timer == Warmup then warmup else cooldown
    }

    function With(timer: Timer, c: Clockwork): State {
      if timer == Warmup then this.(warmup := c) else this.(cooldown := c)
    }

    predicate IsLatest(e: Expiry) {
      e.start + 1 == |Of(e.timer).starts|
    }
  }

  const INITIALLY := State(0, INITIAL, Clockwork([], false), Clockwork([], false), multiset{}, [])

  datatype Event =
    | Wait(ms: nat)
    | Tell(input: Input)
    | RunOut(timer: Timer)
    | Handle(expiry: Expiry)

  function DriveOne(s: State, o: Output): State {
    match o
    case StartTimer(t) => s.With(t, Clockwork(s.Of(t).starts + [Start(s.now, s.d.Period(t))], true))
    case StopTimer(t) => s.With(t, s.Of(t).(running := false))
    case _ => s
  }

  function Drive(s: State, outputs: seq<Output>): State
    decreases |outputs|
  {
    if outputs == [] then s else Drive(DriveOne(s, outputs[0]), outputs[1..])
  }

  predicate Possible(s: State, e: Event) {
    match e
    case Wait(_) => true
    case Tell(input) => !input.Expired? && s.d.Accepts(input)
    case RunOut(t) =>
      && s.Of(t).running && s.Of(t).starts != []
      && var latest := s.Of(t).starts[|s.Of(t).starts| - 1]; s.now >= latest.at + latest.periodMs
    case Handle(expiry) => expiry in s.queue
  }

  function Step(s: State, e: Event): State
    requires Possible(s, e)
  {
    match e
    case Wait(ms) => s.(now := s.now + ms)
    case Tell(input) =>
      Drive(s.(d := s.d.Step(input), history := s.history + [Stamped(s.now, input)]), s.d.Emits(input))
    case RunOut(t) =>
      s.With(t, s.Of(t).(running := false))
       .(queue := s.queue + multiset{Expiry(t, |s.Of(t).starts| - 1)})
    case Handle(expiry) =>
      s.(d := s.d.Step(Expired(expiry.timer)), queue := s.queue - multiset{expiry})
  }

  ghost predicate PossibleRun(s: State, events: seq<Event>)
    decreases |events|
  {
    events == [] || (Possible(s, events[0]) && PossibleRun(Step(s, events[0]), events[1..]))
  }

  function Run(s: State, events: seq<Event>): State
    requires PossibleRun(s, events)
    decreases |events|
  {
    if events == [] then s else Run(Step(s, events[0]), events[1..])
  }

  /** No expiry of an earlier start is handled after a later start. */
  predicate Fresh(s: State, e: Event) {
    e.Handle? ==> s.IsLatest(e.expiry)
  }

  ghost predicate FreshRun(s: State, events: seq<Event>)
    requires PossibleRun(s, events)
    decreases |events|
  {
    events == [] || (Fresh(s, events[0]) && FreshRun(Step(s, events[0]), events[1..]))
  }

  /** From position `i` of the history on, only the result `b` was reported. */
  ghost predicate OnlyResults(history: seq<Stamped>, i: nat, b: bool) {
    i < |history| && forall j | i <= j < |history| :: history[j].input == SetResult(b)
  }

  /** The result has been `b` without interruption for at least `ms`. */
  ghost predicate Lasted(history: seq<Stamped>, now: nat, b: bool, ms: nat) {
    exists i: nat :: OnlyResults(history, i, b) && history[i].at + ms <= now
  }

  /** The latest start of the timer of a due change was made for the first of
      the results that wait for it, and with the period of the alert. */
  ghost predicate Anchored(s: State, timer: Timer, i: nat) {
    var b := timer == Warmup;
    && OnlyResults(s.history, i, b)
    && (i > 0 ==> s.history[i - 1].input != SetResult(b))
    && s.Of(timer).starts != []
    && s.Of(timer).starts[|s.Of(timer).starts| - 1] == Start(s.history[i].at, s.d.Period(timer))
  }

  ghost predicate Ordered(history: seq<Stamped>, now: nat) {
    && (forall i, j | 0 <= i <= j < |history| :: history[i].at <= history[j].at)
    && (forall i | 0 <= i < |history| :: history[i].at <= now)
  }

  /** Every queued expiry is of a start whose period is over. */
  ghost predicate QueueElapsed(s: State) {
    forall e | e in s.queue ::
      && e.start < |s.Of(e.timer).starts|
      && s.Of(e.timer).starts[e.start].at + s.Of(e.timer).starts[e.start].periodMs <= s.now
  }

  ghost predicate Invariant(s: State) {
    && s.d.Valid() && Ordered(s.history, s.now) && QueueElapsed(s)
    && (s.history != [] && s.history[|s.history| - 1].input.SetResult? ==>
          s.history[|s.history| - 1].input == SetResult(s.d.last))
    && (s.d.raised != s.d.last ==> exists i: nat :: Anchored(s, TimerToward(s.d.last), i))
  }

  /** What is driven by the outputs of one input. */
  lemma Driven(s: State, input: Input)
    requires s.d.Valid() && Possible(s, Tell(input))
    ensures var s' := Step(s, Tell(input));
            && s'.now == s.now && s'.queue == s.queue && s'.d == s.d.Step(input)
            && s'.history == s.history + [Stamped(s.now, input)]
            && (forall t: Timer :: s'.Of(t) ==
                  if s.d.Emits(input) == [StartTimer(t)]
                  then Clockwork(s.Of(t).starts + [Start(s.now, s'.d.Period(t))], true)
                  else if StopTimer(t) in s.d.Emits(input) then s.Of(t).(running := false)
                  else s.Of(t))
  {
    var told := s.(d := s.d.Step(input), history := s.history + [Stamped(s.now, input)]);
    var out := s.d.Emits(input);
    if |out| >= 1 {
      var one := DriveOne(told, out[0]);
      assert Drive(told, out) == Drive(one, out[1..]);
      assert |out| == 2 ==> Drive(one, out[1..]) == DriveOne(one, out[1]);
    }
  }

  lemma TellKeeps(s: State, input: Input)
    requires Invariant(s) && Possible(s, Tell(input))
    ensures Invariant(Step(s, Tell(input)))
  {
    Driven(s, input);
    var s' := Step(s, Tell(input));
    StepValid(s.d, input);
    assert QueueElapsed(s');
    if s'.d.raised != s'.d.last {
      var timer := TimerToward(s'.d.last);
      if s.d.raised != s.d.last {
        var i: nat :| Anchored(s, TimerToward(s.d.last), i);
        assert Anchored(s', timer, i);
      } else {
        assert Anchored(s', timer, |s.history|);
      }
    }
  }

  lemma SameStartsKeep(s: State, s': State)
    requires Invariant(s) && QueueElapsed(s')
    requires s'.history == s.history && s'.now >= s.now
    requires forall t: Timer :: s'.Of(t).starts == s.Of(t).starts
    requires s'.d.Valid() && s'.d.last == s.d.last && (s'.d == s.d || s'.d.raised == s'.d.last)
    ensures Invariant(s')
  {
    if s'.d.raised != s'.d.last {
      var i: nat :| Anchored(s, TimerToward(s.d.last), i);
      assert Anchored(s', TimerToward(s'.d.last), i);
    }
  }

  lemma QueueKeeps(s: State, e: Event)
    requires QueueElapsed(s) && Possible(s, e) && !e.Tell?
    ensures QueueElapsed(Step(s, e))
  {
  }

  lemma OtherEventKeeps(s: State, e: Event)
    requires Invariant(s) && Possible(s, e) && !e.Tell?
    ensures Invariant(Step(s, e))
  {
    QueueKeeps(s, e);
    SameStartsKeep(s, Step(s, e));
  }

  lemma {:induction false} RunKeeps(s: State, events: seq<Event>)
    requires Invariant(s) && PossibleRun(s, events)
    ensures Invariant(Run(s, events))
    decreases |events|
  {
    if events != [] {
      if events[0].Tell? {
        TellKeeps(s, events[0].input);
      } else {
        OtherEventKeeps(s, events[0]);
      }
      RunKeeps(Step(s, events[0]), events[1..]);
    }
  }

  /** A due change that an expiry makes is timely exactly when the period has
      passed since the latest start of that timer. */
  lemma ExpiryTimelyExactly(s: State, e: Expiry)
    requires Invariant(s) && s.d.Pending(e.timer)
    ensures s.Of(e.timer).starts != []
    ensures Lasted(s.history, s.now, s.d.last, s.d.Period(e.timer))
       <==> s.Of(e.timer).starts[|s.Of(e.timer).starts| - 1].at + s.d.Period(e.timer) <= s.now
  {
  }

  /** The alert changes its state in this step other than by being unset. */
  predicate Changes(s: State, e: Event)
    requires Possible(s, e)
  {
    e != Tell(UnsetAlert) && Step(s, e).d.raised != s.d.raised
  }

  /** Debouncing, for the next event of any run: a fresh event only raises the
      alert after the result has been true throughout the warmup period, and
      only silences it after it has been false throughout the cooldown period. */
  lemma ChangeIsTimely(s: State, e: Event)
    requires Invariant(s) && Possible(s, e) && Fresh(s, e) && Changes(s, e)
    ensures var s' := Step(s, e);
            Lasted(s'.history, s'.now, s'.d.raised, if s'.d.raised then s'.d.warmupMs else s'.d.cooldownMs)
  {
    var s' := Step(s, e);
    if e.Handle? {
      assert s.IsLatest(e.expiry) && s.d.Pending(e.expiry.timer);
      ExpiryTimelyExactly(s, e.expiry);
      var i: nat :| Anchored(s, e.expiry.timer, i);
    } else if e.Tell? {
      Driven(s, e.input);
      assert OnlyResults(s'.history, |s.history|, s'.d.raised);
    }
  }

  /** Debouncing over whole runs. */
  lemma DebounceInFreshRuns(before: seq<Event>, e: Event)
    requires PossibleRun(INITIALLY, before)
    requires Possible(Run(INITIALLY, before), e) && Fresh(Run(INITIALLY, before), e)
    requires Changes(Run(INITIALLY, before), e)
    ensures var s' := Step(Run(INITIALLY, before), e);
            Lasted(s'.history, s'.now, s'.d.raised, if s'.d.raised then s'.d.warmupMs else s'.d.cooldownMs)
  {
    RunKeeps(INITIALLY, before);
    ChangeIsTimely(Run(INITIALLY, before), e);
  }

  // ---- a lasting result takes effect ----

  /** A due change is under way: its timer runs, or has run out and its expiry is
      queued. */
  ghost predicate UnderWay(s: State) {
    && s.d.Valid()
    && (forall t: Timer | s.d.Pending(t) ::
          s.Of(t).starts != [] && (s.Of(t).running || Expiry(t, |s.Of(t).starts| - 1) in s.queue))
  }

  /** Every event keeps this, the handling of stale expiries included. */
  lemma StepUnderWay(s: State, e: Event)
    requires UnderWay(s) && Possible(s, e)
    ensures UnderWay(Step(s, e))
  {
    match e {
      case Wait(_) =>
      case Tell(input) => Driven(s, input); StepValid(s.d, input);
      case RunOut(t) =>
      case Handle(x) => StepValid(s.d, Expired(x.timer));
    }
  }

  lemma {:induction false} RunUnderWay(s: State, events: seq<Event>)
    requires UnderWay(s) && PossibleRun(s, events)
    ensures UnderWay(Run(s, events))
    decreases |events|
  {
    if events != [] {
      StepUnderWay(s, events[0]);
      RunUnderWay(Step(s, events[0]), events[1..]);
    }
  }

  /** The platform and the event queue are not behind: no timer that runs is
      overdue, and no expiry of a latest start waits to be handled. */
  predicate Settled(s: State) {
    && (forall t: Timer :: !Possible(s, RunOut(t)))
    && (forall e | e in s.queue :: !s.IsLatest(e))
  }

  /** What is due and overdue is never stuck: the timer can run out, after which
      its expiry is queued, and an expiry that is queued makes the change. */
  lemma OverdueHappens(s: State, t: Timer)
    requires UnderWay(s) && s.d.Pending(t)
    requires s.Of(t).starts[|s.Of(t).starts| - 1].at + s.Of(t).starts[|s.Of(t).starts| - 1].periodMs <= s.now
    ensures !Settled(s)
    ensures var x := Expiry(t, |s.Of(t).starts| - 1);
            if x in s.queue then Possible(s, Handle(x)) && Step(s, Handle(x)).d.raised == s.d.last
            else && Possible(s, RunOut(t)) && Possible(Step(s, RunOut(t)), Handle(x))
                 && Step(Step(s, RunOut(t)), Handle(x)).d.raised == s.d.last
  {
    if Expiry(t, |s.Of(t).starts| - 1) !in s.queue {
      assert Possible(s, RunOut(t));
    }
  }

  /** The other half of debouncing, in any run, stale expiries included: when the
      result has been `b` throughout the period toward `b` and the platform is
      not behind, the alert is in the state `b`. */
  lemma LastingTakesEffect(s: State, b: bool)
    requires Invariant(s) && UnderWay(s) && Settled(s)
    requires Lasted(s.history, s.now, b, if b then s.d.warmupMs else s.d.cooldownMs)
    ensures s.d.raised == b
  {
    var t := TimerToward(b);
    var i: nat :| OnlyResults(s.history, i, b) && s.history[i].at + s.d.Period(t) <= s.now;
    assert s.history[|s.history| - 1].input == SetResult(b);
    if s.d.raised != b {
      var j: nat :| Anchored(s, t, j);
      assert j <= i;
      OverdueHappens(s, t);
      assert false;
    }
  }

  lemma LastingTakesEffectInRuns(events: seq<Event>, b: bool)
    requires PossibleRun(INITIALLY, events) && Settled(Run(INITIALLY, events))
    requires var s := Run(INITIALLY, events); Lasted(s.history, s.now, b, if b then s.d.warmupMs else s.d.cooldownMs)
    ensures Run(INITIALLY, events).d.raised == b
  {
    RunKeeps(INITIALLY, events);
    RunUnderWay(INITIALLY, events);
    LastingTakesEffect(Run(INITIALLY, events), b);
  }

  // ---- the platform's timers ----

  /** A platform timer runs only while its change is due. */
  ghost predicate TimersInStep(s: State) {
    && s.d.Valid()
    && (forall t: Timer :: s.Of(t).running ==> s.d.Pending(t))
    && (forall e | e in s.queue :: s.IsLatest(e) ==> !s.Of(e.timer).running)
    && (forall e | e in s.queue :: e.start < |s.Of(e.timer).starts|)
  }

  lemma TellKeepsTimers(s: State, input: Input)
    requires TimersInStep(s) && Possible(s, Tell(input))
    ensures TimersInStep(Step(s, Tell(input)))
  {
    Driven(s, input);
    StepValid(s.d, input);
    var s' := Step(s, Tell(input));
    assert forall t: Timer :: |s'.Of(t).starts| > |s.Of(t).starts| || s'.Of(t).starts == s.Of(t).starts;
  }

  lemma RunOutKeepsTimers(s: State, t: Timer)
    requires TimersInStep(s) && Possible(s, RunOut(t))
    ensures TimersInStep(Step(s, RunOut(t)))
  {
  }

  /** An expiry makes a change while the platform timer of that change has been
      started again and is still running. */
  predicate Overtakes(s: State, e: Event) {
    e.Handle? && s.Of(e.expiry.timer).running && s.d.Pending(e.expiry.timer)
  }

  lemma HandleTimersExactly(s: State, x: Expiry)
    requires TimersInStep(s) && Possible(s, Handle(x))
    ensures TimersInStep(Step(s, Handle(x))) <==> !Overtakes(s, Handle(x))
  {
    StepValid(s.d, Expired(x.timer));
    var s' := Step(s, Handle(x));
    assert forall t: Timer :: s'.Of(t) == s.Of(t);
    assert s.d.Pending(x.timer) ==> !s'.d.Pending(x.timer);
  }

  /** The timers stay in step with the raiser if and only if the event does not
      overtake a running timer. */
  lemma StepTimersExactly(s: State, e: Event)
    requires TimersInStep(s) && Possible(s, e)
    ensures TimersInStep(Step(s, e)) <==> !Overtakes(s, e)
  {
    match e {
      case Wait(_) =>
      case Tell(input) => TellKeepsTimers(s, input);
      case RunOut(t) => RunOutKeepsTimers(s, t);
      case Handle(x) => HandleTimersExactly(s, x);
    }
  }

  /** The timers are in step now and after each of the events. */
  ghost predicate AlwaysInStep(s: State, events: seq<Event>)
    requires PossibleRun(s, events)
    decreases |events|
  {
    TimersInStep(s) && (events != [] ==> AlwaysInStep(Step(s, events[0]), events[1..]))
  }

  ghost predicate NoneOvertakes(s: State, events: seq<Event>)
    requires PossibleRun(s, events)
    decreases |events|
  {
    events == [] || (!Overtakes(s, events[0]) && NoneOvertakes(Step(s, events[0]), events[1..]))
  }

  lemma {:induction false} RunTimersExactly(s: State, events: seq<Event>)
    requires TimersInStep(s) && PossibleRun(s, events)
    ensures AlwaysInStep(s, events) <==> NoneOvertakes(s, events)
    decreases |events|
  {
    if events != [] {
      StepTimersExactly(s, events[0]);
      if TimersInStep(Step(s, events[0])) {
        RunTimersExactly(Step(s, events[0]), events[1..]);
      }
    }
  }

  /** In a run from the start the timers are in step throughout if and only if
      no expiry ever overtakes a running timer. */
  lemma TimersInStepExactly(events: seq<Event>)
    requires PossibleRun(INITIALLY, events)
    ensures AlwaysInStep(INITIALLY, events) <==> NoneOvertakes(INITIALLY, events)
  {
    assert TimersInStep(INITIALLY);
    RunTimersExactly(INITIALLY, events);
  }

  /** A fresh expiry never overtakes: its timer has run out. */
  lemma {:induction false} FreshRunsDoNotOvertake(s: State, events: seq<Event>)
    requires TimersInStep(s) && PossibleRun(s, events) && FreshRun(s, events)
    ensures NoneOvertakes(s, events)
    decreases |events|
  {
    if events != [] {
      StepTimersExactly(s, events[0]);
      FreshRunsDoNotOvertake(Step(s, events[0]), events[1..]);
    }
  }

  /** Unsetting an alert leaves a platform timer running if and only if one runs
      that is out of step. */
  lemma UnsetStopsExactly(s: State)
    requires s.d.Valid()
    ensures (forall t: Timer :: !Step(s, Tell(UnsetAlert)).Of(t).running)
       <==> (forall t: Timer :: s.Of(t).running ==> s.d.Pending(t))
  {
    Driven(s, UnsetAlert);
    var s' := Step(s, Tell(UnsetAlert));
    forall t: Timer ensures !s'.Of(t).running <==> (s.Of(t).running ==> s.d.Pending(t)) {
    }
  }

  /** In a fresh run no timer is left running when the alert is unset, so that
      the next alert never changes the period of a running timer. */
  lemma FreshRunsStopTimers(s: State, events: seq<Event>)
    requires TimersInStep(s) && PossibleRun(s, events) && FreshRun(s, events)
    ensures TimersInStep(Run(s, events))
    ensures !Run(s, events).d.isSet ==> forall t: Timer :: !Run(s, events).Of(t).running
  {
    FreshRunsDoNotOvertake(s, events);
    RunTimersExactly(s, events);
    InStepAtTheEnd(s, events);
  }

  lemma {:induction false} InStepAtTheEnd(s: State, events: seq<Event>)
    requires PossibleRun(s, events) && AlwaysInStep(s, events)
    ensures TimersInStep(Run(s, events))
    decreases |events|
  {
    if events != [] {
      InStepAtTheEnd(Step(s, events[0]), events[1..]);
    }
  }

  /** A run of six events in which the condition flickers while an expiry is
      queued. */
  const FLICKER: seq<Event> := [
    Tell(SetAlert(0, 10, 0)), Tell(SetResult(true)), Wait(10), RunOut(Warmup),
    Tell(SetResult(false)), Tell(SetResult(true))]

  const FLICKERED := State(
    10, Debouncer(true, 0, 10, 0, false, true),
    Clockwork([Start(0, 10), Start(10, 10)], true), Clockwork([], false),
    multiset{Expiry(Warmup, 0)},
    [Stamped(0, SetAlert(0, 10, 0)), Stamped(0, SetResult(true)),
     Stamped(10, SetResult(false)), Stamped(10, SetResult(true))])

  lemma FlickerFrom(s: State, k: nat)
    requires k < |FLICKER| && Possible(s, FLICKER[k])
    requires PossibleRun(Step(s, FLICKER[k]), FLICKER[k + 1..])
    ensures PossibleRun(s, FLICKER[k..]) && Run(s, FLICKER[k..]) == Run(Step(s, FLICKER[k]), FLICKER[k + 1..])
  {
  }

  lemma FlickerEnd(s: State)
    requires s == State(10, Debouncer(true, 0, 10, 0, false, true),
                        Clockwork([Start(0, 10)], false), Clockwork([], false), multiset{Expiry(Warmup, 0)},
                        [Stamped(0, SetAlert(0, 10, 0)), Stamped(0, SetResult(true))])
    ensures PossibleRun(s, FLICKER[4..]) && Run(s, FLICKER[4..]) == FLICKERED
  {
    Driven(s, SetResult(false));
    var s5 := Step(s, FLICKER[4]);
    Driven(s5, SetResult(true));
    var s6 := Step(s5, FLICKER[5]);
    assert s6.Of(Warmup) == FLICKERED.warmup && s6.Of(Cooldown) == FLICKERED.cooldown;
    assert s6.history == FLICKERED.history;
    FlickerFrom(s5, 5);
    FlickerFrom(s, 4);
  }

  lemma FlickerMiddle(s: State)
    requires s == State(0, Debouncer(true, 0, 10, 0, false, true),
                        Clockwork([Start(0, 10)], true), Clockwork([], false), multiset{},
                        [Stamped(0, SetAlert(0, 10, 0)), Stamped(0, SetResult(true))])
    ensures PossibleRun(s, FLICKER[2..]) && Run(s, FLICKER[2..]) == FLICKERED
  {
    var s3 := Step(s, FLICKER[2]);
    FlickerEnd(Step(s3, FLICKER[3]));
    FlickerFrom(s3, 3);
    FlickerFrom(s, 2);
  }

  lemma FlickerRun()
    ensures PossibleRun(INITIALLY, FLICKER) && Run(INITIALLY, FLICKER) == FLICKERED
  {
    Driven(INITIALLY, SetAlert(0, 10, 0));
    var s1 := Step(INITIALLY, FLICKER[0]);
    Driven(s1, SetResult(true));
    var s2 := Step(s1, FLICKER[1]);
    assert s2.Of(Warmup) == Clockwork([Start(0, 10)], true) && s2.Of(Cooldown) == INITIALLY.cooldown;
    assert s2.history == [Stamped(0, SetAlert(0, 10, 0)), Stamped(0, SetResult(true))];
    FlickerMiddle(s2);
    FlickerFrom(s1, 1);
    FlickerFrom(INITIALLY, 0);
    assert FLICKER[0..] == FLICKER;
  }

  /** Without freshness debouncing fails: handled now, the queued expiry raises
      the alert although the result has been true for no time at all. It overtakes
      the timer started since, and leaves it running even when the alert is unset. */
  lemma StaleExpiryRaisesEarly()
    ensures PossibleRun(INITIALLY, FLICKER)
    ensures var s := Run(INITIALLY, FLICKER);
            var e := Handle(Expiry(Warmup, 0));
            && Possible(s, e) && Changes(s, e) && Step(s, e).d.raised && Overtakes(s, e)
            && !Lasted(s.history, s.now, true, s.d.warmupMs)
            && var gone := Step(Step(s, e), Tell(UnsetAlert));
               !gone.d.isSet && gone.warmup.running
  {
    FlickerRun();
    var s := Run(INITIALLY, FLICKER);
    Driven(Step(s, Handle(Expiry(Warmup, 0))), UnsetAlert);
    forall i: nat | OnlyResults(s.history, i, true) ensures s.history[i].at == 10 {
      assert s.history[2].input != SetResult(true);
    }
  }
}
