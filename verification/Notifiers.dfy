/** What happens when an alert is raised or silenced: alert_notifier.c,
    connectivity_notifier.c, led_notifier.c and led_notification_executor.c,
    all in src/app. */
module Notifiers {
  import opened Domain
  import opened Sequences
  import opened LinkedLists
  import opened LedRing
  import opened LedManagers
  import opened Transceivers
  import opened MessageSlots

  /** An entry of the LED table; the LED is kept when the alert is disabled. */
  datatype LedSetting = LedSetting(led: Led, isEnabled: bool)

  /** The notifications enabled for an alert. */
  datatype Setting = Setting(connectivity: bool, led: Option<Led>)

  const SILENT := Setting(false, None)

  /** The status messages of an alert among all that were sent, as the raised
      flags they carry. */
  function SentBy(messages: seq<Message>, id: nat): seq<bool> {
    if messages == [] then []
    else
      var m := messages[|messages| - 1];
      SentBy(messages[..|messages| - 1], id) + if m.alertId == id then [m.raised] else []
  }

  lemma SentByOneMore(messages: seq<Message>, m: Message, id: nat)
    ensures SentBy(messages + [m], id) == SentBy(messages, id) + if m.alertId == id then [m.raised] else []
  {
  }

  /** What the LED manager is told to do, and for which alert. */
  datatype LedCommand = ForAlert(alertId: nat, op: Op<Led>) | Ticked {
    function AsOp(): Op<Led> {
      if Ticked? then Tick else op
    }
  }

  function OpsOf(commands: seq<LedCommand>): (r: seq<Op<Led>>)
    ensures |r| == |commands| && forall i | 0 <= i < |r| :: r[i] == commands[i].AsOp()
  {
    seq(|commands|, i requires 0 <= i < |commands| => commands[i].AsOp())
  }

  /** The commands for an alert among all commands. */
  function LitBy(commands: seq<LedCommand>, id: nat): seq<Op<Led>> {
    if commands == [] then []
    else
      var c := commands[|commands| - 1];
      LitBy(commands[..|commands| - 1], id) + if c.ForAlert? && c.alertId == id then [c.op] else []
  }

  lemma LitByOneMore(commands: seq<LedCommand>, c: LedCommand, id: nat)
    ensures LitBy(commands + [c], id) == LitBy(commands, id) + if c.ForAlert? && c.alertId == id then [c.op] else []
  {
  }

  predicate KnownAlerts(commands: seq<LedCommand>, n: nat) {
    forall c | c in commands :: c.ForAlert? ==> c.alertId < n
  }

  const DARK: Ring<Led> := LedRing.Ring([], 0)

  /** What the notifiers are told when an alert has become `raised`, with what is
      enabled for it then. */
  datatype Notice = Notice(alertId: byte, setting: Setting, raised: bool)

  /** What the notifiers hold and have done so far. */
  datatype NotifierState = NotifierState(
    settings: seq<Setting>,
    /** The rotation of the LED. */
    display: Ring<Led>,
    /** Every command to the LED manager. */
    commands: seq<LedCommand>,
    /** Every message handed to the transceiver, and its reports. */
    traffic: Traffic)
  {
    /** The rotation is what the commands make of an empty one, all of them
        possible when they were given; and messages are tracked. */
    ghost predicate Valid() {
      && display.Valid()
      && AllEnabled(DARK, OpsOf(commands)) && ApplyAll(DARK, OpsOf(commands)) == display
      && KnownAlerts(commands, |settings|)
      && traffic.initialized && Tracked(traffic)
      && |settings| <= TWO_TO_THE_8
    }

    function Commanded(c: LedCommand): NotifierState
      requires display.Valid()
    {
      this.(display := Do(display, c.AsOp()), commands := commands + [c])
    }

    function Sending(id: byte, raised: bool): NotifierState
      requires traffic.initialized
    {
      this.(traffic := MessageSlots.Step(traffic, Send(Message(id, raised, None, 0))))
    }

    /** A message is sent and the LED follows, each if enabled. */
    function Told(n: Notice): (s: NotifierState)
      requires display.Valid() && traffic.initialized
      ensures s.settings == settings && s.display.Valid() && s.traffic.initialized
    {
      var sent := if n.setting.connectivity then Sending(n.alertId, n.raised) else this;
      match n.setting.led
      case None => sent
      case Some(led) => sent.Commanded(ForAlert(n.alertId, if n.raised then Add(led) else Remove(led)))
    }

    /** Alert `id` has become `raised`. */
    ghost function After(id: nat, raised: bool): (s: NotifierState)
      requires Valid() && id < |settings|
      ensures s.settings == settings && s.display.Valid()
    {
      Told(Notice(id, settings[id], raised))
    }

    /** The notifications of alert `id` have been handled, at most one. */
    ghost function Heard(id: nat, notes: seq<bool>): (s: NotifierState)
      requires Valid() && id < |settings|
      ensures s.settings == settings && s.display.Valid()
    {
      if notes == [] then this else After(id, notes[0])
    }
  }

  /** Nothing that was done is forgotten. */
  predicate Extends(before: NotifierState, after: NotifierState) {
    && before.commands <= after.commands
    && before.traffic.sent <= after.traffic.sent && before.traffic.calls <= after.traffic.calls
  }

  /** ... and meanwhile the display was not advanced. */
  predicate Notified(before: NotifierState, after: NotifierState) {
    Extends(before, after) && forall k | |before.commands| <= k < |after.commands| :: after.commands[k].ForAlert?
  }

  /** `s` comes from `past` by telling `heard` in this order; meanwhile settings may
      have changed. */
  ghost predicate Follows(past: NotifierState, heard: seq<Notice>, s: NotifierState) {
    past.display.Valid() && past.traffic.initialized && s == ToldAll(past, heard).(settings := s.settings)
  }

  function ToldAll(s: NotifierState, notices: seq<Notice>): (r: NotifierState)
    requires s.display.Valid() && s.traffic.initialized
    ensures r.settings == s.settings && r.display.Valid() && r.traffic.initialized
  {
    if notices == [] then s
    else ToldAll(s, notices[..|notices| - 1]).Told(notices[|notices| - 1])
  }

  lemma FollowsItself(s: NotifierState)
    requires s.Valid()
    ensures Follows(s, [], s)
  {
  }

  /** One more notice at most. */
  lemma FollowsOn(past: NotifierState, heard: seq<Notice>, s: NotifierState, id: byte, notes: seq<bool>,
                  more: seq<Notice>)
    requires Follows(past, heard, s) && s.Valid() && id < |s.settings| && |notes| <= 1
    requires more == if notes == [] then [] else [Notice(id, s.settings[id], notes[0])]
    ensures Follows(past, heard + more, s.Heard(id, notes))
  {
    hide NotifierState.Valid, NotifierState.Told, ToldAll;
    StateIsValid(s);
    if notes == [] {
      assert heard + more == heard;
    } else {
      ToldSettings(ToldAll(past, heard), s.settings, more[0]);
      ToldAllMore(past, heard, more[0]);
      assert more == [more[0]];
    }
  }

  lemma ToldAllMore(s: NotifierState, notices: seq<Notice>, n: Notice)
    requires s.display.Valid() && s.traffic.initialized
    ensures ToldAll(s, notices + [n]) == ToldAll(s, notices).Told(n)
  {
    hide NotifierState.Told;
    assert (notices + [n])[..|notices|] == notices;
  }

  /** Being told does not depend on the settings of now. */
  lemma ToldSettings(s: NotifierState, settings: seq<Setting>, n: Notice)
    requires s.display.Valid() && s.traffic.initialized
    ensures s.(settings := settings).Told(n) == s.Told(n).(settings := settings)
  {
  }

  /** Telling forgets nothing and does not advance the display. */
  lemma {:induction false} FollowsNotified(past: NotifierState, heard: seq<Notice>, s: NotifierState)
    requires Follows(past, heard, s)
    ensures Notified(past, s)
    decreases |heard|
  {
    if heard != [] {
      FollowsNotified(past, heard[..|heard| - 1], ToldAll(past, heard[..|heard| - 1]));
    }
  }

  lemma CommandedValid(s: NotifierState, c: LedCommand)
    requires s.Valid() && Enabled(s.display, c.AsOp()) && (c.ForAlert? ==> c.alertId < |s.settings|)
    ensures s.Commanded(c).Valid()
  {
    hide Tracked;
    assert OpsOf(s.commands + [c]) == OpsOf(s.commands) + [c.AsOp()];
    ApplyConcat(DARK, OpsOf(s.commands), [c.AsOp()]);
    assert [c.AsOp()][1..] == [];
  }

  lemma SendingValid(s: NotifierState, id: byte, raised: bool)
    requires s.Valid()
    ensures s.Sending(id, raised).Valid() && Extends(s, s.Sending(id, raised))
  {
    hide OneToOne, ExactlyOnce;
    SendKeeps(s.traffic, Message(id, raised, None, 0));
  }

  lemma AfterValid(s: NotifierState, id: nat, raised: bool)
    requires s.Valid() && id < |s.settings|
    requires s.settings[id].led.Some? && !raised ==> s.settings[id].led.value in s.display.entries
    ensures s.After(id, raised).Valid()
  {
    hide NotifierState.Valid;
    StateIsValid(s);
    var sent := if s.settings[id].connectivity then s.Sending(id, raised) else s;
    SendingValid(s, id, raised);
    if s.settings[id].led.Some? {
      var led := s.settings[id].led.value;
      CommandedValid(sent, ForAlert(id, if raised then Add(led) else Remove(led)));
    }
  }

  lemma StateIsValid(s: NotifierState)
    requires s.Valid()
    ensures s.display.Valid() && s.traffic.initialized && |s.settings| <= TWO_TO_THE_8
  {
  }

  /** What becomes of the projections to alert `i`. */
  lemma HeardProjects(s: NotifierState, id: nat, notes: seq<bool>, i: nat)
    requires s.Valid() && id < |s.settings| && |notes| <= 1
    ensures SentBy(s.Heard(id, notes).traffic.sent, i) ==
            SentBy(s.traffic.sent, i) + if i == id && s.settings[id].connectivity then notes else []
    ensures LitBy(s.Heard(id, notes).commands, i) ==
            LitBy(s.commands, i) + if i == id then Lit(s.settings[id].led, notes) else []
  {
    hide NotifierState.Valid, SentBy, LitBy;
    StateIsValid(s);
    if notes != [] {
      var raised := notes[0];
      assert notes == [raised];
      SentByOneMore(s.traffic.sent, Message(id, raised, None, 0), i);
      if s.settings[id].led.Some? {
        var led := s.settings[id].led.value;
        LitByOneMore(s.commands, ForAlert(id, if raised then Add(led) else Remove(led)), i);
      }
    }
  }

  /** The commands that notifications amount to with this LED setting. */
  function Lit(led: Option<Led>, notes: seq<bool>): seq<Op<Led>> {
    match led
    case None => []
    case Some(l) => seq(|notes|, i requires 0 <= i < |notes| => if notes[i] then Add(l) else Remove(l))
  }

  class AlertNotifier {
    const connectivity: array<bool>
    const leds: array<LedSetting>
    const transceiver: MsgTransceiver
    const manager: LedManager

    const numAlerts: nat

    /** What the application sees: the enabled notifications of every alert, the
        rotation of the LED and the messages. */
    ghost var state: NotifierState
    ghost var Repr: set<object>

    ghost predicate Valid()
      reads this, Repr
      ensures Valid() ==> this in Repr && manager in Repr && |state.settings| == numAlerts && state.Valid()
    {
      && this in Repr && connectivity in Repr && leds in Repr
      && transceiver in Repr && transceiver.slots in Repr
      && manager in Repr && manager.Repr <= Repr
      && PartsValid()
      && Shows(state) && state.Valid()
    }

    ghost predicate PartsValid()
      reads transceiver, transceiver.slots, manager, manager.Repr
      ensures PartsValid() ==> connectivity.Length == leds.Length == numAlerts && this !in manager.Repr
    {
      && this !in manager.Repr && connectivity !in manager.Repr && leds !in manager.Repr
      && transceiver !in manager.Repr && transceiver.slots !in manager.Repr
      && connectivity.Length == leds.Length == numAlerts <= TWO_TO_THE_8
      && transceiver.Valid() && transceiver.initialized
      && manager.Valid()
    }

    ghost predicate Shows(s: NotifierState)
      requires connectivity.Length == leds.Length == numAlerts
      reads connectivity, leds, manager`cursor, manager.list, transceiver
      ensures Shows(s) ==> |s.settings| == numAlerts
    {
      SettingsAre(s.settings) && s.display == Display() && s.traffic == transceiver.traffic
    }

    ghost predicate SettingsAre(settings: seq<Setting>)
      requires connectivity.Length == leds.Length == numAlerts
      reads connectivity, leds
      ensures SettingsAre(settings) ==> |settings| == numAlerts
    {
      |settings| == numAlerts && forall i | 0 <= i < numAlerts :: settings[i] == SettingOf(i)
    }

    ghost function SettingOf(id: nat): Setting
      requires id < numAlerts && connectivity.Length == leds.Length == numAlerts
      reads connectivity, leds
    {
      Setting(connectivity[id], if leds[id].isEnabled then Some(leds[id].led) else None)
    }

    ghost function Display(): Ring<Led>
      reads manager`cursor, manager.list
    {
      Shown(manager.Ring())
    }

    /** The shared node pool holds the nodes of the LED list and `others`, and
        `others` leave a node for every alert. */
    ghost predicate NodesReserved(others: set<object>)
      reads manager.list, manager.list.pool
    {
      && manager.list.pool.live == manager.list.NodeSet() + others
      && manager.list.NodeSet() !! others
      && |others| + numAlerts <= manager.list.pool.capacity
    }

    ghost predicate Ready(others: set<object>)
      reads this, Repr, manager.list.pool
      ensures Ready(others) ==> Valid() && |state.settings| == numAlerts && state.Valid()
    {
      Valid() && NodesReserved(others)
    }

    /** The LED list can follow when alert `id` becomes `raised`. */
    ghost predicate CanNotify(id: nat, raised: bool)
      requires |state.settings| == numAlerts
      reads this`state
      ensures CanNotify(id, raised) ==> id < numAlerts
    {
      && id < numAlerts <= manager.notificationPool.capacity
      && match state.settings[id].led
         case None => true
         case Some(led) => if raised then |state.display.entries| < numAlerts else led in state.display.entries
    }

    constructor (numAlerts: nat, transceiver: MsgTransceiver, manager: LedManager)
      requires transceiver.Valid() && transceiver.initialized && Tracked(transceiver.traffic)
      requires manager.Valid() && manager.Ring() == LedRing.Ring([], 0)
      requires transceiver !in manager.Repr && transceiver.slots !in manager.Repr
      requires numAlerts <= TWO_TO_THE_8
      ensures Valid() && this.numAlerts == numAlerts
      ensures this.transceiver == transceiver && this.manager == manager
      ensures fresh(Repr - {transceiver, transceiver.slots} - manager.Repr)
      ensures state == NotifierState(Repeat(SILENT, numAlerts), DARK, [], transceiver.traffic)
    {
      connectivity := new bool[numAlerts](_ => false);
      leds := new LedSetting[numAlerts](_ => LedSetting(Led(Red, Static), false));
      this.transceiver := transceiver;
      this.manager := manager;
      this.numAlerts := numAlerts;
      new;
      hide LedManager.Valid, MsgTransceiver.Valid, Tracked;
      state := NotifierState(Repeat(SILENT, numAlerts), DARK, [], transceiver.traffic);
      Repr := {this, connectivity, leds, transceiver, transceiver.slots} + manager.Repr;
    }

    /** connectivity_notifier_enable_notifications and its LED counterpart; no
        LED given leaves the LED table alone. */
    method EnableNotifications(id: nat, onConnectivity: bool, led: Option<Led>, ghost others: set<object>)
      requires Ready(others) && id < numAlerts && state.settings[id] == SILENT
      modifies this`state, connectivity, leds
      ensures Ready(others)
      ensures state == old(state).(settings := old(state).settings[id := Setting(onConnectivity, led)])
    {
      hide AlertNotifier.NodesReserved, LedManager.Valid, MsgTransceiver.Valid, Tracked, AlertNotifier.Display;
      if onConnectivity {
        connectivity[id] := true;
      }
      if led.Some? {
        leds[id] := LedSetting(led.value, true);
      }
      state := state.(settings := state.settings[id := Setting(onConnectivity, led)]);
    }

    method DisableConnectivity(id: nat, ghost others: set<object>)
      requires Ready(others) && id < numAlerts
      modifies this`state, connectivity
      ensures Ready(others)
      ensures var setting := old(state).settings[id].(connectivity := false);
              state == old(state).(settings := old(state).settings[id := setting])
    {
      hide AlertNotifier.NodesReserved, LedManager.Valid, MsgTransceiver.Valid, Tracked, AlertNotifier.Display;
      connectivity[id] := false;
      state := state.(settings := state.settings[id := state.settings[id].(connectivity := false)]);
    }

    method DisableLed(id: nat, ghost others: set<object>)
      requires Ready(others) && id < numAlerts
      modifies this`state, leds
      ensures Ready(others)
      ensures state == old(state).(settings := old(state).settings[id := old(state).settings[id].(led := None)])
    {
      hide AlertNotifier.NodesReserved, LedManager.Valid, MsgTransceiver.Valid, Tracked, AlertNotifier.Display;
      leds[id] := leds[id].(isEnabled := false);
      state := state.(settings := state.settings[id := state.settings[id].(led := None)]);
    }

    ghost function Ticking(now: nat): NotifierState
      requires state.display.Valid()
      reads this`state, manager`isTimerRunning, manager`timerStart
    {
      if manager.Ticks(now) then state.Commanded(Ticked) else state
    }

    /** The LED shows the entry the cursor is on; and when an expiry counts. */
    lemma LedShows(now: nat)
      requires Valid()
      ensures var r := state.display;
              && r.Valid() && manager.shown == (if r.entries == [] then None else Some(r.entries[r.cursor]))
              && (manager.Ticks(now) <==>
                    |r.entries| >= 2
                    && (now - manager.timerStart - manager.ignoreMs) % TWO_TO_THE_32 < TWO_TO_THE_31)
    {
      hide LedManager.Valid, MsgTransceiver.Valid, Tracked, AlertNotifier.SettingsAre;
      manager.ShownIs(now);
    }

    method TickParts(now: nat, ghost others: set<object>)
      requires PartsValid() && Shows(state) && NodesReserved(others) && state.display.Valid()
      modifies manager.Repr
      ensures PartsValid() && NodesReserved(others) && manager.Repr == old(manager.Repr)
      ensures Shows(old(Ticking(now)))
    {
      hide LedManager.Valid, MsgTransceiver.Valid, AlertNotifier.SettingsAre, LinkedList.NodeSet;
      TickShown(manager.Ring());
      NodeSetIs();
      manager.NotificationTimerCb(now);
      NodeSetIs();
    }

    /** An expiry of the LED manager's timer: an accepted one is a tick. */
    method LedTick(now: nat, ghost others: set<object>)
      requires Ready(others)
      modifies Repr
      ensures Ready(others) && Repr == old(Repr)
      ensures state == old(Ticking(now))
    {
      hide AlertNotifier.PartsValid, AlertNotifier.NodesReserved, AlertNotifier.Shows, NotifierState.Valid;
      StateIsValid(state);
      CommandedValid(state, Ticked);
      ghost var s := Ticking(now);
      TickParts(now, others);
      Record(s);
    }

    lemma NodeSetIs()
      ensures manager.list.NodeSet() == ToSet(manager.list.nodes)
    {
    }

    lemma TickShown(r: Ring<LedNotification>)
      requires r.Valid()
      ensures Shown(r).Valid() && Shown(r.Next()) == Do(Shown(r), Tick)
    {
    }

    method CompleteParts(slot: nat, result: bool, ghost others: set<object>)
      requires PartsValid() && Shows(state) && NodesReserved(others) && Tracked(state.traffic)
      requires slot < transceiver.slots.Length
      modifies transceiver, transceiver.slots
      ensures PartsValid() && NodesReserved(others)
      ensures transceiver.traffic.initialized && Tracked(transceiver.traffic)
      ensures Shows(state.(traffic := transceiver.traffic))
      ensures Completes(state.traffic, transceiver.traffic, slot, result)
    {
      hide LedManager.Valid, MsgTransceiver.Valid, Tracked, AlertNotifier.Display, AlertNotifier.SettingsAre;
      transceiver.TransmitComplete(slot, result);
    }

    /** The network reports on a status message. */
    method TransmitComplete(slot: nat, result: bool, ghost others: set<object>)
      requires Ready(others) && slot < transceiver.slots.Length
      modifies Repr
      ensures Ready(others) && Repr == old(Repr)
      ensures state == old(state).(traffic := state.traffic)
      ensures Completes(old(state).traffic, state.traffic, slot, result)
    {
      hide AlertNotifier.PartsValid, AlertNotifier.NodesReserved, AlertNotifier.Shows, Tracked, Completes;
      CompleteParts(slot, result, others);
      Record(state.(traffic := transceiver.traffic));
    }

    method AddLed(led: Led, now: nat, ghost others: set<object>)
      requires manager.Valid() && NodesReserved(others)
      requires |Display().entries| < numAlerts <= manager.notificationPool.capacity
      modifies manager.Repr, manager.list.pool
      ensures manager.Valid() && NodesReserved(others)
      ensures fresh(manager.Repr - old(manager.Repr))
      ensures Display() == old(Display()).Append(led)
    {
      hide LedManager.Valid;
      ghost var was := manager.Ring();
      ToSetSize(manager.list.nodes);
      assert |manager.list.NodeSet()| <= |was.entries|;
      hide LinkedList.NodeSet;
      assert manager.list.NodeSet() !! others;
      ghost var entry, node := manager.AddNotification(led, now);
      assert manager.list.NodeSet() !! others by { assert node !in others; }
      ShownCommutes(was, entry);
    }

    /** The removal must succeed: the executor asserts on its result. */
    method RemoveLed(led: Led, now: nat, ghost others: set<object>)
      requires manager.Valid() && NodesReserved(others) && led in Display().entries
      modifies manager.Repr, manager.list.pool
      ensures manager.Valid() && NodesReserved(others)
      ensures manager.Repr == old(manager.Repr)
      ensures old(Display()).Valid() && Display() == old(Display()).RemoveAt(IndexOf(old(Display()).entries, led))
    {
      ghost var was, k := manager.Ring(), IndexOf(Leds(manager.list.Contents()), led);
      ghost var pool, mine, node := manager.list.pool.live, manager.list.NodeSet(), manager.list.nodes[k];
      RemoveShown(was, led);
      GoneWasMine(k);
      assert pool == mine + others && mine !! others && |others| + numAlerts <= manager.list.pool.capacity;
      hide LedManager.Valid, LinkedList.NodeSet, Leds, Shown, LedRing.Ring.RemoveAt, IndexOf, Survivors, HasLed;
      hide AlertNotifier.NodesReserved;
      var removed := manager.RemoveNotification(led, now);
      assert removed;
      StillReserved(others, pool, mine, {node});
    }

    lemma StillReserved(others: set<object>, pool: set<object>, mine: set<object>, gone: set<object>)
      requires pool == mine + others && mine !! others && gone <= mine
      requires manager.list.NodeSet() == mine - gone && manager.list.pool.live == pool - gone
      requires |others| + numAlerts <= manager.list.pool.capacity
      ensures NodesReserved(others)
    {
    }

    lemma RemoveShown(r: Ring<LedNotification>, led: Led)
      requires r.Valid() && led in Leds(r.entries)
      ensures Shown(r).Valid() && Shown(r).entries == Leds(r.entries)
      ensures Shown(r.RemoveAt(IndexOf(Leds(r.entries), led))) == Shown(r).RemoveAt(IndexOf(Leds(r.entries), led))
    {
      ShownCommutes(r, r.entries[0]);
    }

    lemma GoneWasMine(k: nat)
      requires k < |manager.list.nodes|
      ensures manager.list.nodes[k] in manager.list.NodeSet()
    {
    }

    method NotifyConnectivity(id: nat, raised: bool)
      requires PartsValid() && id < numAlerts && state.traffic == transceiver.traffic
      modifies transceiver, transceiver.slots
      ensures PartsValid()
      ensures state.traffic.initialized
      ensures transceiver.traffic == if connectivity[id] then state.Sending(id, raised).traffic else state.traffic
    {
      hide LedManager.Valid, MsgTransceiver.Valid;
      if connectivity[id] {
        transceiver.SendAlertStatusChangeMessage(id, raised, None, 0);
      }
    }

    method NotifyLed(id: nat, raised: bool, now: nat, ghost others: set<object>)
      requires PartsValid() && |state.settings| == numAlerts && CanNotify(id, raised) && NodesReserved(others)
      requires state.settings[id] == SettingOf(id) && state.display == Display() && state.Valid()
      modifies manager.Repr, manager.list.pool
      ensures PartsValid() && NodesReserved(others)
      ensures fresh(manager.Repr - old(manager.Repr))
      ensures Display() == state.After(id, raised).display
    {
      hide LedManager.Valid, MsgTransceiver.Valid, AlertNotifier.NodesReserved, NotifierState.Valid;
      hide AlertNotifier.Display;
      StateIsValid(state);
      var led := leds[id].led;
      if !leds[id].isEnabled { return; }
      if raised {
        AddLed(led, now, others);
      } else {
        RemoveLed(led, now, others);
      }
    }

    method NotifyAll(id: nat, raised: bool, now: nat, ghost others: set<object>)
      requires PartsValid() && Shows(state) && state.Valid() && CanNotify(id, raised) && NodesReserved(others)
      modifies transceiver, transceiver.slots, manager.Repr, manager.list.pool
      ensures PartsValid() && NodesReserved(others)
      ensures fresh(manager.Repr - old(manager.Repr))
      ensures Shows(state.After(id, raised))
    {
      hide LedManager.Valid, MsgTransceiver.Valid, AlertNotifier.NodesReserved, AlertNotifier.CanNotify;
      hide NotifierState.Valid, AlertNotifier.Display;
      ghost var settings := state.settings;
      assert settings[id] == SettingOf(id);
      NotifyConnectivity(id, raised);
      NotifyLed(id, raised, now, others);
      assert SettingsAre(settings);
    }

    ghost method Record(s: NotifierState)
      requires PartsValid() && Shows(s)
      modifies this
      ensures PartsValid() && Shows(state) && state == s && Repr == old(Repr) + manager.Repr
      ensures manager.Repr <= old(Repr) ==> Repr == old(Repr)
    {
      hide AlertNotifier.PartsValid;
      Repr := Repr + manager.Repr;
      state := s;
    }

    method Notify(id: nat, raised: bool, now: nat, ghost others: set<object>)
      requires Ready(others) && CanNotify(id, raised)
      modifies Repr, manager.list.pool
      ensures Ready(others) && fresh(Repr - old(Repr))
      ensures state == old(state).After(id, raised)
    {
      hide AlertNotifier.PartsValid, AlertNotifier.NodesReserved, AlertNotifier.Shows, NotifierState.Valid;
      AfterValid(state, id, raised);
      NotifyAll(id, raised, now, others);
      Record(state.After(id, raised));
    }
  }

  /** `after` is the traffic once the network has reported on `slot`: the
      message in it is done, and a vacant slot makes no difference. */
  ghost predicate Completes(before: Traffic, after: Traffic, slot: nat, result: bool) {
    slot < |before.slots| &&
    if !before.slots[slot].isOccupied then after == before
    else exists ticket: nat ::
      GivenSlot(before, ticket, slot) && after == MessageSlots.Step(before, Complete(ticket, result))
  }

  /** A report on an occupied slot calls back once, with the network's result and
      what the sender of the message in the slot gave. */
  lemma CompletesReports(before: Traffic, after: Traffic, slot: nat, result: bool)
    requires Tracked(before) && Completes(before, after, slot, result)
    ensures slot < |before.slots| && after.sent == before.sent
    ensures if !before.slots[slot].isOccupied then after.calls == before.calls
            else
              && !after.slots[slot].isOccupied && |after.calls| == |before.calls| + 1
              && var c := after.calls[|before.calls|];
                 && after.calls == before.calls + [c] && c.result == result && c.ticket < |before.sent|
                 && GivenSlot(before, c.ticket, slot) && !GivenSlot(after, c.ticket, slot)
                 && c.cb == before.sent[c.ticket].cb && c.userData == before.sent[c.ticket].userData
  {
    if before.slots[slot].isOccupied {
      var ticket: nat :|
        GivenSlot(before, ticket, slot) && after == MessageSlots.Step(before, Complete(ticket, result));
      StepReports(before, Complete(ticket, result));
    }
  }

  lemma CompletesExtends(before: Traffic, after: Traffic, slot: nat, result: bool)
    requires Completes(before, after, slot, result)
    ensures after.sent == before.sent && before.calls <= after.calls
  {
  }

  lemma TickingExtends(before: NotifierState, after: NotifierState)
    requires before.display.Valid() && (after == before || after == before.Commanded(Ticked))
    ensures Extends(before, after)
  {
  }
}
