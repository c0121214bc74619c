/** All alert raisers (src/app/alert_raisers.c) with the notifier they share:
    everything that reacts to condition results and timer expiries. */
module RaiserBanks {
  import opened Domain
  import opened Sequences
  import opened Raising
  import opened LedRing
  import opened LedManagers
  import opened Notifiers
  import opened AlertRaisers
  import opened MessageSlots

  /** The LED notification an alert has on display. */
  function Showing(d: Debouncer, setting: Setting): Option<Led> {
    if d.raised then setting.led else None
  }

  function ShowingAll(states: seq<Debouncer>, settings: seq<Setting>): (r: seq<Option<Led>>)
    requires |states| == |settings|
    ensures |r| == |states| && forall i | 0 <= i < |r| :: r[i] == Showing(states[i], settings[i])
  {
    seq(|states|, i requires 0 <= i < |states| => Showing(states[i], settings[i]))
  }

  ghost function OneLed(led: Option<Led>): multiset<Led> {
    if led.Some? then multiset{led.value} else multiset{}
  }

  /** All LED notifications on display. */
  ghost function Wanted(showing: seq<Option<Led>>): multiset<Led> {
    if showing == [] then multiset{} else OneLed(showing[0]) + Wanted(showing[1..])
  }

  /** An LED is wanted as often as there are alerts that show it. */
  lemma {:induction false} WantedCounts(showing: seq<Option<Led>>, led: Led)
    ensures Wanted(showing)[led] == |set i | 0 <= i < |showing| && showing[i] == Some(led)|
  {
    hide Wanted;
    if showing == [] {
      NothingWanted(showing);
    } else {
      var n := |showing| - 1;
      var before := showing[..n];
      WantedCounts(before, led);
      WantedLast(before, showing[n]);
      assert showing == before + [showing[n]];
      CountLast(before, showing[n], led);
    }
  }

  lemma CountLast(showing: seq<Option<Led>>, last: Option<Led>, led: Led)
    ensures |set i | 0 <= i < |showing + [last]| && (showing + [last])[i] == Some(led)| ==
            |set i | 0 <= i < |showing| && showing[i] == Some(led)| + if last == Some(led) then 1 else 0
  {
    var fewer := set i | 0 <= i < |showing| && showing[i] == Some(led);
    var all := set i | 0 <= i < |showing + [last]| && (showing + [last])[i] == Some(led);
    if last == Some(led) {
      assert all == fewer + {|showing|};
    } else {
      assert all == fewer;
    }
  }

  lemma {:induction false} WantedLast(showing: seq<Option<Led>>, led: Option<Led>)
    ensures Wanted(showing + [led]) == Wanted(showing) + OneLed(led)
  {
    if showing == [] {
      assert showing + [led] == [led];
    } else {
      assert (showing + [led])[1..] == showing[1..] + [led];
      WantedLast(showing[1..], led);
    }
  }

  lemma Regroup<T>(a: multiset<T>, rest: multiset<T>, gone: multiset<T>, come: multiset<T>)
    requires gone <= rest
    ensures gone <= a + rest
    ensures a + (rest - gone + come) == (a + rest) - gone + come
  {
  }

  lemma Replace<T>(gone: multiset<T>, rest: multiset<T>, come: multiset<T>)
    ensures gone <= gone + rest
    ensures come + rest == (gone + rest) - gone + come
  {
  }

  lemma {:induction false} WantedUpdate(showing: seq<Option<Led>>, i: nat, led: Option<Led>)
    requires i < |showing|
    ensures OneLed(showing[i]) <= Wanted(showing)
    ensures Wanted(showing[i := led]) == Wanted(showing) - OneLed(showing[i]) + OneLed(led)
  {
    hide OneLed;
    var rest := showing[1..];
    if i == 0 {
      assert showing[i := led][1..] == rest;
      Replace(OneLed(showing[0]), Wanted(rest), OneLed(led));
    } else {
      WantedUpdate(rest, i - 1, led);
      assert showing[i := led][1..] == rest[i - 1 := led];
      Regroup(OneLed(showing[0]), Wanted(rest), OneLed(showing[i]), OneLed(led));
    }
  }

  lemma {:induction false} WantedSize(showing: seq<Option<Led>>)
    ensures |Wanted(showing)| <= |showing|
    ensures None in showing ==> |Wanted(showing)| < |showing|
  {
    if showing != [] {
      WantedSize(showing[1..]);
      assert showing == [showing[0]] + showing[1..];
    }
  }

  /** An alert can always be shown once more, and what it shows can go. */
  lemma WantedAllowsFlip(states: seq<Debouncer>, settings: seq<Setting>, i: nat)
    requires i < |states| == |settings|
    ensures var shown := Wanted(ShowingAll(states, settings));
            if states[i].raised then settings[i].led.Some? ==> settings[i].led.value in shown
            else |shown| < |states|
  {
    var showing := ShowingAll(states, settings);
    WantedUpdate(showing, i, None);
    assert showing[i] in showing;
    WantedSize(showing);
  }

  lemma ReplaceOne(shown: multiset<Led>, gone: Option<Led>, come: Option<Led>)
    requires OneLed(gone) <= shown
    ensures gone == come ==> shown - OneLed(gone) + OneLed(come) == shown
    ensures gone == None ==> shown - OneLed(gone) + OneLed(come) == shown + OneLed(come)
    ensures come == None ==> shown - OneLed(gone) + OneLed(come) == shown - OneLed(gone)
  {
  }

  ghost predicate Accords(states: seq<Debouncer>, s: NotifierState) {
    |states| == |s.settings| && multiset(s.display.entries) == Wanted(ShowingAll(states, s.settings))
  }

  lemma DoMultiset(r: Ring<Led>, op: Op<Led>)
    requires r.Valid() && Enabled(r, op)
    ensures multiset(Do(r, op).entries) ==
            match op
            case Add(x) => multiset(r.entries) + multiset{x}
            case Remove(x) => multiset(r.entries) - multiset{x}
            case Tick => multiset(r.entries)
  {
    if op.Remove? {
      WithoutMultiset(r.entries, IndexOf(r.entries, op.x));
    }
  }

  lemma AfterMultiset(state: NotifierState, i: nat, raised: bool)
    requires state.Valid() && i < |state.settings|
    requires var led := state.settings[i].led; led.Some? && !raised ==> led.value in state.display.entries
    ensures var shown, led := multiset(state.display.entries), OneLed(state.settings[i].led);
            multiset(state.After(i, raised).display.entries) == if raised then shown + led else shown - led
  {
    hide NotifierState.Valid, Do, Apply, Without, IndexOf;
    StateIsValid(state);
    match state.settings[i].led {
      case None =>
      case Some(l) => DoMultiset(state.display, if raised then Add(l) else Remove(l));
    }
  }

  /** When an alert changes its state, the LED list stays in accord with the
      alerts by following. */
  lemma AfterAccords(states: seq<Debouncer>, state: NotifierState, i: nat, d: Debouncer)
    requires state.Valid() && Accords(states, state) && i < |states| && d.raised != states[i].raised
    ensures Accords(states[i := d], state.After(i, d.raised))
  {
    hide Wanted, OneLed, NotifierState.Valid, NotifierState.After;
    var showing := ShowingAll(states, state.settings);
    var come := Showing(d, state.settings[i]);
    WantedUpdate(showing, i, come);
    WantedAllowsFlip(states, state.settings, i);
    ReplaceOne(Wanted(showing), showing[i], come);
    AfterMultiset(state, i, d.raised);
    assert ShowingAll(states[i := d], state.settings) == showing[i := come];
  }

  /** The accord is about which alerts are raised only. */
  lemma SameAccords(states: seq<Debouncer>, state: NotifierState, i: nat, d: Debouncer)
    requires Accords(states, state) && i < |states| && d.raised == states[i].raised
    ensures Accords(states[i := d], state)
  {
    assert ShowingAll(states[i := d], state.settings) == ShowingAll(states, state.settings);
  }

  /** A change of state is notified once. */
  lemma HeardFollows(d: Debouncer, input: Input, state: NotifierState, id: nat)
    requires d.Valid() && d.Accepts(input) && state.Valid() && id < |state.settings|
    ensures state.Heard(id, Notifications(d.Emits(input))) ==
            if d.Step(input).raised == d.raised then state else state.After(id, d.Step(input).raised)
  {
    StepNotifies(d, input);
  }

  lemma IdStays(d: Debouncer, input: Input, id: nat)
    requires d.Accepts(input) && (d.isSet ==> d.alertId == id) && (input.SetAlert? ==> input.alertId == id)
    ensures d.Step(input).isSet ==> d.Step(input).alertId == id
  {
  }

  /** The loop of alert_raisers_create_instances. */
  method CreateRaisers(notifier: AlertNotifier) returns (made: seq<AlertRaiser>)
    ensures |made| == notifier.numAlerts && Distinct(made)
    ensures forall r | r in made ::
              fresh(r) && r.notifier == notifier && r.Valid() && r.State() == INITIAL && r.log == []
  {
    made := [];
    for i := 0 to notifier.numAlerts
      invariant |made| == i && Distinct(made)
      invariant forall r | r in made ::
                  fresh(r) && r.notifier == notifier && r.Valid() && r.State() == INITIAL && r.log == []
    {
      var raiser := new AlertRaiser(notifier);
      DistinctExtend(made, raiser);
      made := made + [raiser];
    }
  }

  class RaiserBank {
    const notifier: AlertNotifier
    const raisers: seq<AlertRaiser>

    ghost var states: seq<Debouncer>
    ghost var logs: seq<seq<Output>>
    ghost var Repr: set<object>

    ghost predicate Shape()
      reads this, notifier
    {
      && |raisers| == |states| == |logs| == |notifier.state.settings| == notifier.numAlerts
      && notifier.numAlerts <= notifier.manager.notificationPool.capacity
      && {this, notifier} <= Repr && notifier.Repr <= Repr && this !in notifier.Repr
      && (forall i | 0 <= i < |raisers| ::
            raisers[i] in Repr && raisers[i] !in notifier.Repr && raisers[i].notifier == notifier)
      && Distinct(raisers)
    }

    ghost predicate RaiserOk(i: nat)
      requires i < |raisers| == |states| == |logs|
      reads this, raisers[i]
    {
      && raisers[i].Valid() && raisers[i].State() == states[i] && raisers[i].log == logs[i]
      && (states[i].isSet ==> states[i].alertId == i)
    }

    /** The LED list shows exactly the alerts that are raised and have an LED
        notification enabled. */
    ghost predicate Accounted()
      reads this, notifier
    {
      Accords(states, notifier.state)
    }

    /** `others` are the nodes of other lists in the shared pool. */
    ghost predicate Ready(others: set<object>)
      reads this, Repr, notifier, notifier.Repr, notifier.manager.list.pool
      ensures Ready(others) ==> this in Repr && |states| == |raisers| == |logs|
      ensures Ready(others) ==> |notifier.state.settings| == |raisers| && notifier.state.Valid()
    {
      && Shape() && notifier.Ready(others) && Accounted()
      && (forall i | 0 <= i < |raisers| :: RaiserOk(i))
    }

    /** What of `Ready` does not depend on the shared pool. */
    ghost predicate Valid()
      reads this, Repr, notifier, notifier.Repr
      ensures Valid() ==> this in Repr && notifier in Repr && notifier.Repr <= Repr && |states| == |raisers| == |logs|
      ensures Valid() ==> |notifier.state.settings| == |raisers| && notifier.state.Valid()
    {
      Shape() && notifier.Valid() && Accounted() && (forall i | 0 <= i < |raisers| :: RaiserOk(i))
    }

    lemma ReadyIs(others: set<object>)
      ensures Ready(others) <==> Valid() && notifier.NodesReserved(others)
    {
    }

    lemma StateValid(id: nat)
      requires Valid() && id < |raisers|
      ensures states[id].Valid()
    {
      assert RaiserOk(id);
    }

    /** The LED list never has more entries than there are alerts. */
    lemma LedNodesBound()
      requires Valid()
      ensures |notifier.manager.list.NodeSet()| <= |raisers|
    {
      var list := notifier.manager.list;
      WantedSize(ShowingAll(states, notifier.state.settings));
      assert |multiset(notifier.state.display.entries)| == |notifier.state.display.entries| == |list.nodes|;
      ToSetSize(list.nodes);
      assert list.NodeSet() == (set o: object | o in list.nodes) == ToSet(list.nodes);
    }

    /** alert_raisers_create_instances. */
    constructor (notifier: AlertNotifier, ghost others: set<object>)
      requires notifier.Ready(others) && notifier.numAlerts <= notifier.manager.notificationPool.capacity
      requires notifier.state ==
               NotifierState(Repeat(SILENT, notifier.numAlerts), DARK, [], notifier.transceiver.traffic)
      ensures Ready(others) && fresh(Repr - notifier.Repr) && this.notifier == notifier
      ensures notifier.state == old(notifier.state)
      ensures states == Repeat(INITIAL, notifier.numAlerts) && logs == Repeat([], notifier.numAlerts)
    {
      hide AlertNotifier.Ready, AlertRaiser.Valid, AlertRaiser.State, Wanted;
      this.notifier := notifier;
      var made := CreateRaisers(notifier);
      raisers := made;
      states := Repeat(INITIAL, notifier.numAlerts);
      logs := Repeat([], notifier.numAlerts);
      new;
      Repr := notifier.Repr + {this} + ToSet(raisers);
      NothingWanted(ShowingAll(states, notifier.state.settings));
    }

    /** alert_raisers_get_alert_raiser and the call on the raiser. */
    method Dispatch(raiser: AlertRaiser, input: Input, now: nat, ghost others: set<object>)
      requires raiser.Valid() && raiser.CanChange(others) && raiser.State().Accepts(input)
      modifies raiser, raiser.notifier.Repr, raiser.notifier.manager.list.pool
      ensures raiser.Valid() && raiser.Changed(input, others)
    {
      hide AlertRaiser.Valid, AlertNotifier.Ready, AlertNotifier.CanNotify, AlertNotifier.Valid;
      match input {
        case SetAlert(id, w, c) => raiser.SetAlert(id, w, c);
        case UnsetAlert => raiser.UnsetAlert(now, others);
        case SetResult(b) => raiser.SetAlertConditionResult(b, now, others);
        case Expired(Warmup) => raiser.WarmupPeriodExpiredCb(now, others);
        case Expired(Cooldown) => raiser.CooldownPeriodExpiredCb(now, others);
      }
    }

    /** The bank, apart from what alert `id` just did, is as it was. */
    ghost predicate Feeding(id: nat, input: Input, others: set<object>)
      requires id < |raisers| == |states| == |logs| && states[id].Accepts(input)
      reads this, Repr, notifier, notifier.Repr, notifier.manager.list.pool, raisers[id]
    {
      && notifier.Ready(others)
      && Accords(states[id := states[id].Step(input)], notifier.state)
      && raisers[id].Valid() && raisers[id].State() == states[id].Step(input)
      && raisers[id].log == logs[id] + states[id].Emits(input)
      && raisers[id] in Repr
    }

    lemma CanFlip(id: nat)
      requires Accounted() && id < |states| == notifier.numAlerts <= notifier.manager.notificationPool.capacity
      ensures notifier.CanNotify(id, !states[id].raised)
    {
      WantedAllowsFlip(states, notifier.state.settings, id);
      assert |multiset(notifier.state.display.entries)| == |notifier.state.display.entries|;
    }

    method FeedRaiser(id: nat, input: Input, now: nat, ghost others: set<object>)
      requires Ready(others) && id < |raisers| && states[id].Accepts(input)
      modifies raisers[id], notifier.Repr, notifier.manager.list.pool
      ensures Feeding(id, input, others)
      ensures fresh(notifier.Repr - old(notifier.Repr))
      ensures notifier.state == old(notifier.state).Heard(id, Notifications(old(states)[id].Emits(input)))
    {
      hide AlertNotifier.Ready, AlertNotifier.Valid, AlertRaiser.Valid, Wanted;
      assert RaiserOk(id);
      hide NotifierState.Valid, Accords;
      CanFlip(id);
      ghost var d := states[id].Step(input);
      HeardFollows(states[id], input, notifier.state, id);
      if d.raised == states[id].raised {
        SameAccords(states, notifier.state, id, d);
      } else {
        AfterAccords(states, notifier.state, id, d);
      }
      Dispatch(raisers[id], input, now, others);
    }

    /** One input for the alert `id`. */
    method Feed(id: nat, input: Input, now: nat, ghost others: set<object>)
      requires Ready(others) && id < |raisers| && states[id].Accepts(input)
      requires input.SetAlert? ==> input.alertId == id
      modifies Repr, notifier.manager.list.pool
      ensures Ready(others) && fresh(Repr - old(Repr))
      ensures states == old(states)[id := old(states)[id].Step(input)]
      ensures logs == old(logs)[id := old(logs)[id] + old(states)[id].Emits(input)]
      ensures notifier.state == old(notifier.state).Heard(id, Notifications(old(states)[id].Emits(input)))
    {
      hide AlertNotifier.Ready, AlertNotifier.Valid, AlertRaiser.Valid, Accords, NotifierState.Valid;
      hide NotifierState.Heard;
      hide AlertRaiser.State, Debouncer.Step, Debouncer.Emits, Debouncer.Accepts, Notifications;
      assert RaiserOk(id);
      IdStays(states[id], input, id);
      OnlyAt(raisers, id);
      FeedRaiser(id, input, now, others);
      label fed:
      Repr := Repr + notifier.Repr;
      logs := logs[id := logs[id] + states[id].Emits(input)];
      states := states[id := states[id].Step(input)];
      forall i | 0 <= i < |raisers| && i != id ensures RaiserOk(i) {
        assert old(RaiserOk(i)) && old@fed(RaiserOk(i));
      }
    }

    /** Only the LED setting of an alert that is raised counts. */
    lemma SettingDoesNotShow(id: nat, setting: Setting)
      requires Accounted() && id < |states|
      requires !states[id].raised || setting.led == notifier.state.settings[id].led
      ensures Accords(states, notifier.state.(settings := notifier.state.settings[id := setting]))
    {
      var settings := notifier.state.settings;
      assert ShowingAll(states, settings[id := setting]) == ShowingAll(states, settings);
    }

    method EnableNotifications(id: nat, onConnectivity: bool, led: Option<Led>, ghost others: set<object>)
      requires Ready(others) && id < |raisers|
      requires notifier.state.settings[id] == SILENT && !states[id].raised
      modifies notifier.Repr
      ensures Ready(others) && Repr == old(Repr) && states == old(states) && logs == old(logs)
      ensures notifier.state ==
              old(notifier.state).(settings := old(notifier.state.settings)[id := Setting(onConnectivity, led)])
    {
      hide AlertNotifier.Ready, AlertRaiser.Valid, AlertRaiser.State, Wanted;
      SettingDoesNotShow(id, Setting(onConnectivity, led));
      notifier.EnableNotifications(id, onConnectivity, led, others);
      RaisersUntouched();
    }

    method DisableConnectivity(id: nat, ghost others: set<object>)
      requires Ready(others) && id < |raisers|
      modifies notifier.Repr
      ensures Ready(others) && Repr == old(Repr) && states == old(states) && logs == old(logs)
      ensures var setting := old(notifier.state.settings[id]).(connectivity := false);
              notifier.state == old(notifier.state).(settings := old(notifier.state.settings)[id := setting])
    {
      hide AlertNotifier.Ready, AlertRaiser.Valid, AlertRaiser.State, Wanted;
      SettingDoesNotShow(id, notifier.state.settings[id].(connectivity := false));
      notifier.DisableConnectivity(id, others);
      RaisersUntouched();
    }

    method DisableLed(id: nat, ghost others: set<object>)
      requires Ready(others) && id < |raisers| && !states[id].raised
      modifies notifier.Repr
      ensures Ready(others) && Repr == old(Repr) && states == old(states) && logs == old(logs)
      ensures var setting := old(notifier.state.settings[id]).(led := None);
              notifier.state == old(notifier.state).(settings := old(notifier.state.settings)[id := setting])
    {
      hide AlertNotifier.Ready, AlertRaiser.Valid, AlertRaiser.State, Wanted;
      SettingDoesNotShow(id, notifier.state.settings[id].(led := None));
      notifier.DisableLed(id, others);
      RaisersUntouched();
    }

    method LedTick(now: nat, ghost others: set<object>)
      requires Ready(others)
      modifies notifier.Repr
      ensures Ready(others) && Repr == old(Repr) && states == old(states) && logs == old(logs)
      ensures notifier.state == old(notifier.Ticking(now))
    {
      hide AlertNotifier.Ready, AlertRaiser.Valid, AlertRaiser.State, Wanted;
      notifier.LedTick(now, others);
      RaisersUntouched();
    }

    method TransmitComplete(slot: nat, result: bool, ghost others: set<object>)
      requires Ready(others) && slot < notifier.transceiver.slots.Length
      modifies notifier.Repr
      ensures Ready(others) && Repr == old(Repr) && states == old(states) && logs == old(logs)
      ensures notifier.state == old(notifier.state).(traffic := notifier.state.traffic)
      ensures Completes(old(notifier.state).traffic, notifier.state.traffic, slot, result)
    {
      hide AlertNotifier.Ready, AlertRaiser.Valid, AlertRaiser.State, Wanted, Completes;
      notifier.TransmitComplete(slot, result, others);
      RaisersUntouched();
    }

    twostate lemma RaisersUntouched()
      requires |raisers| == |old(states)| == |old(logs)|
      requires unchanged(this) && forall i | 0 <= i < |raisers| :: unchanged(raisers[i])
      requires forall i | 0 <= i < |raisers| :: old(RaiserOk(i))
      ensures forall i | 0 <= i < |raisers| :: RaiserOk(i)
    {
      forall i | 0 <= i < |raisers| ensures RaiserOk(i) {
        assert old(RaiserOk(i));
      }
    }
  }

  lemma {:induction false} NothingWanted(showing: seq<Option<Led>>)
    requires forall i | 0 <= i < |showing| :: showing[i] == None
    ensures Wanted(showing) == multiset{}
  {
    if showing != [] {
      NothingWanted(showing[1..]);
    }
  }
}
