/** The application: the handlers of src/app/glue on the requirements and the
    raisers. Every event is handled before the next one begins. It refines
    `Engines`, where every alert is evaluated from scratch. */
module Applications {
  import opened Domain
  import opened Sequences
  import opened Pools
  import opened LinkedLists
  import opened Raising
  import opened Wire
  import opened MessageParsers
  import opened LedManagers
  import opened Notifiers
  import opened Transceivers
  import opened LedRing
  import MessageSlots
  import opened Validators
  import opened Requirements
  import opened Conditions
  import opened RequirementStores
  import opened RaiserBanks
  import opened Lights
  import opened Engines

  /** The alerts as the parts of the application know them. */
  ghost predicate Same(alerts: seq<AlertState>, states: seq<Debouncer>, logs: seq<seq<Output>>, s: NotifierState,
                       groups: seq<Cnf>)
  {
    && |alerts| == |states| == |logs| == |s.settings| == |groups|
    && forall i | 0 <= i < |alerts| ::
         && alerts[i] == AlertState(states[i], logs[i], SentBy(s.traffic.sent, i), LitBy(s.commands, i), s.settings[i],
                                    alerts[i].formula)
         && groups[i] == alerts[i].formula + [[]]
  }

  lemma SameSizes(alerts: seq<AlertState>, states: seq<Debouncer>, logs: seq<seq<Output>>, s: NotifierState,
                  groups: seq<Cnf>, id: nat)
    requires Same(alerts, states, logs, s, groups) && id < |alerts|
    ensures |alerts| == |states| == |logs| == |s.settings| == |groups|
    ensures alerts[id].state == states[id] && alerts[id].setting == s.settings[id]
    ensures groups[id] == alerts[id].formula + [[]]
  {
  }

  lemma SameTold(alerts: seq<AlertState>, states: seq<Debouncer>, logs: seq<seq<Output>>, s: NotifierState,
                 groups: seq<Cnf>, id: nat, input: Input, s': NotifierState)
    requires Same(alerts, states, logs, s, groups)
    requires id < |alerts| && states[id].Valid() && states[id].Accepts(input) && s.Valid()
    requires s' == s.Heard(id, Notifications(states[id].Emits(input)))
    ensures Same(alerts[id := alerts[id].Told(input)], states[id := states[id].Step(input)],
                 logs[id := logs[id] + states[id].Emits(input)], s', groups)
  {
    hide NotifierState.Valid, NotifierState.Heard, Debouncer.Step, Debouncer.Emits, Notifications, Lit, SentBy, LitBy;
    var notes := Notifications(states[id].Emits(input));
    StepNotifies(states[id], input);
    forall i | 0 <= i < |alerts|
      ensures SentBy(s'.traffic.sent, i) == if i == id then alerts[id].Told(input).sent else alerts[i].sent
      ensures LitBy(s'.commands, i) == if i == id then alerts[id].Told(input).lit else alerts[i].lit
    {
      HeardProjects(s, id, notes, i);
      assert alerts[i].sent + [] == alerts[i].sent && alerts[i].lit + [] == alerts[i].lit;
    }
  }

  lemma SameSet(alerts: seq<AlertState>, states: seq<Debouncer>, logs: seq<seq<Output>>, s: NotifierState,
                groups: seq<Cnf>, id: nat, setting: Setting, s': NotifierState)
    requires Same(alerts, states, logs, s, groups) && id < |alerts|
    requires s' == s.(settings := s.settings[id := setting])
    ensures Same(alerts[id := alerts[id].(setting := setting)], states, logs, s', groups)
  {
  }

  /** The display may move on. */
  lemma SameTicked(alerts: seq<AlertState>, states: seq<Debouncer>, logs: seq<seq<Output>>, s: NotifierState,
                   groups: seq<Cnf>)
    requires Same(alerts, states, logs, s, groups) && s.display.Valid()
    ensures Same(alerts, states, logs, s.Commanded(Ticked), groups)
  {
    hide LitBy;
    forall i | 0 <= i < |alerts| ensures LitBy(s.commands + [Ticked], i) == LitBy(s.commands, i) {
      LitByOneMore(s.commands, Ticked, i);
    }
  }

  /** Messages may be reported on. */
  lemma SameCompleted(alerts: seq<AlertState>, states: seq<Debouncer>, logs: seq<seq<Output>>, s: NotifierState,
                      groups: seq<Cnf>, traffic: MessageSlots.Traffic, slot: nat, result: bool)
    requires Same(alerts, states, logs, s, groups) && Completes(s.traffic, traffic, slot, result)
    ensures Same(alerts, states, logs, s.(traffic := traffic), groups)
  {
    CompletesExtends(s.traffic, traffic, slot, result);
  }

  lemma SameBuilt(alerts: seq<AlertState>, states: seq<Debouncer>, logs: seq<seq<Output>>, s: NotifierState,
                  groups: seq<Cnf>, id: nat, formula: Cnf)
    requires Same(alerts, states, logs, s, groups) && id < |alerts|
    ensures Same(alerts[id := alerts[id].(formula := formula)], states, logs, s, groups[id := formula + [[]]])
  {
  }

  ghost predicate AllFit(e: Engine) {
    forall i | 0 <= i < |e.alerts| :: Fits(e.alerts[i], i)
  }

  /** Exactly the alerts in `fed` have been evaluated since `e0`. */
  ghost predicate AlertsSwept(e: Engine, e0: Engine, fed: seq<int>)
    ensures AlertsSwept(e, e0, fed) ==> e.values == e0.values && |e.alerts| == |e0.alerts|
  {
    && e.values == e0.values && |e.alerts| == |e0.alerts|
    && forall i | 0 <= i < |e0.alerts| ::
         e.alerts[i] == if i in fed then e0.alerts[i].Evaluated(e0.values) else e0.alerts[i]
  }

  /** A cache that has changed since `caches` was taken is current, and its
      alert is in `fed`; those of `visited` are current anyway. */
  ghost predicate CachesSwept(live: set<VariableRequirement>, values: Readings, fed: seq<int>,
                              caches: map<VariableRequirement, Cache>, visited: seq<VariableRequirement>)
    reads live
  {
    && caches.Keys == live && (forall r | r in visited :: r in live)
    && (forall r | r in live :: r.CacheOf() == caches[r] || (r.alertId in fed && r.Settled(values)))
    && (forall r | r in visited :: r.Settled(values))
  }

  /** The alerts evaluated so far and alert `r` belongs to, if the visit of `r`
      is the first to find a result that is not the one in the cache. */
  function FedOn(fed: seq<int>, r: VariableRequirement, caches: map<VariableRequirement, Cache>, values: Readings)
    : seq<int>
  {
    if r.alertId in fed || (r in caches && caches[r] == Cache(true, Holds(r.comparison, values))) then fed
    else fed + [r.alertId as int]
  }

  /** The alerts that a sweep through `visited` evaluates, in this order, when
      it begins with these caches. */
  function FedBy(visited: seq<VariableRequirement>, caches: map<VariableRequirement, Cache>, values: Readings)
    : seq<int>
  {
    if visited == [] then []
    else FedOn(FedBy(visited[..|visited| - 1], caches, values), visited[|visited| - 1], caches, values)
  }

  /** At position `k` stands a comparison of alert `id` whose result is not the
      one in the cache. */
  ghost predicate StaleAt(visited: seq<VariableRequirement>, k: nat, caches: map<VariableRequirement, Cache>,
                          values: Readings, id: int)
  {
    && k < |visited| && visited[k].alertId == id
    && !(visited[k] in caches && caches[visited[k]] == Cache(true, Holds(visited[k].comparison, values)))
  }

  /** Exactly the alerts with a stale comparison are evaluated, each once, in the
      order of their first ones. */
  lemma {:induction false} FedByMeans(visited: seq<VariableRequirement>, caches: map<VariableRequirement, Cache>,
                                      values: Readings)
    ensures var fed := FedBy(visited, caches, values);
            && (forall id :: id in fed <==> exists k: nat :: StaleAt(visited, k, caches, values, id))
            && (forall a, b, k: nat | 0 <= a < b < |fed| && StaleAt(visited, k, caches, values, fed[b]) ::
                  StaleBefore(visited, k, caches, values, fed[a]))
    decreases |visited|
  {
    if visited != [] {
      var n := |visited| - 1;
      var before, r := visited[..n], visited[n];
      FedByMeans(before, caches, values);
      assert visited == before + [r];
      FedByMore(before, r, caches, values);
      var fed, fed' := FedBy(before, caches, values), FedBy(visited, caches, values);
      forall id
        ensures id in fed ==> StaleBefore(visited, n, caches, values, id)
        ensures id in fed' <==> exists k: nat :: StaleAt(visited, k, caches, values, id)
      {
        StaleMore(before, r, caches, values, id);
      }
      forall a, b, k: nat | 0 <= a < b < |fed'| && StaleAt(visited, k, caches, values, fed'[b])
        ensures StaleBefore(visited, k, caches, values, fed'[a])
      {
        assert fed'[a] == fed[a] && fed[a] in fed;
        if k < n {
          assert StaleAt(before, k, caches, values, fed'[b]);
          assert fed'[b] in fed && b < |fed|;
          var j: nat :| j < k && StaleAt(before, j, caches, values, fed[a]);
          assert StaleAt(visited, j, caches, values, fed'[a]);
        }
      }
    }
  }

  ghost predicate StaleBefore(visited: seq<VariableRequirement>, k: nat, caches: map<VariableRequirement, Cache>,
                              values: Readings, id: int)
  {
    exists j: nat :: j < k && StaleAt(visited, j, caches, values, id)
  }

  lemma StaleMore(before: seq<VariableRequirement>, r: VariableRequirement, caches: map<VariableRequirement, Cache>,
                  values: Readings, id: int)
    ensures (exists k: nat :: StaleAt(before, k, caches, values, id)) <==>
            StaleBefore(before + [r], |before|, caches, values, id)
    ensures (exists k: nat :: StaleAt(before + [r], k, caches, values, id)) <==>
            (StaleBefore(before + [r], |before|, caches, values, id)
             || StaleAt(before + [r], |before|, caches, values, id))
  {
    var visited := before + [r];
    if k: nat :| StaleAt(before, k, caches, values, id) {
      assert StaleAt(visited, k, caches, values, id);
    }
    if StaleBefore(visited, |before|, caches, values, id) {
      var j: nat :| j < |before| && StaleAt(visited, j, caches, values, id);
      assert StaleAt(before, j, caches, values, id);
    }
  }

  lemma FedByMore(visited: seq<VariableRequirement>, r: VariableRequirement, caches: map<VariableRequirement, Cache>,
                  values: Readings)
    ensures FedBy(visited + [r], caches, values) == FedOn(FedBy(visited, caches, values), r, caches, values)
  {
    assert (visited + [r])[..|visited|] == visited;
  }

  /** Evaluating one more alert, or one again. */
  lemma AlertsSweptMore(e: Engine, e0: Engine, fed: seq<int>, id: byte)
    requires AlertsSwept(e, e0, fed) && AllFit(e0) && id < |e0.alerts|
    ensures var fed' := if id in fed then fed else fed + [id as int];
            && AlertsSwept(e.(alerts := e.alerts[id := e.alerts[id].Evaluated(e0.values)]), e0, fed')
            && NoticesFor(e0.alerts, e0.values, fed') ==
               NoticesFor(e0.alerts, e0.values, fed) + VerdictNotices(e.alerts[id], id, e0.values)
  {
    hide EvalCnf;
    assert Fits(e0.alerts[id], id);
    if id in fed {
      EvaluatedTwice(e0.alerts[id], id, e0.values);
      EvaluatedIsQuiet(e0.alerts[id], id, e0.values);
      var notices := NoticesFor(e0.alerts, e0.values, fed);
      assert notices + [] == notices;
    } else {
      assert (fed + [id as int])[..|fed|] == fed;
    }
  }

  lemma EvaluatedIsQuiet(a: AlertState, id: byte, values: Readings)
    requires Fits(a, id)
    ensures VerdictNotices(a.Evaluated(values), id, values) == []
  {
    hide EvalCnf;
    EvaluatedTwice(a, id, values);
    if a.state.isSet {
      var b := a.Evaluated(values);
      NoticesAre(b, id, SetResult(EvalCnf(a.formula, values)));
    }
  }

  /** The notifiers with everything below them. */
  method CreateNotifier(numAlerts: nat, nodePool: Pool, durationMs: nat, marginMs: nat)
    returns (notifier: AlertNotifier)
    requires numAlerts <= TWO_TO_THE_8 && marginMs <= durationMs
    requires nodePool.live == {} && nodePool.capacity >= numAlerts
    ensures fresh(notifier.Repr) && notifier.Ready({})
    ensures notifier.manager.list.pool == nodePool && notifier.numAlerts == numAlerts
    ensures notifier.manager.ignoreMs == durationMs - marginMs
    ensures numAlerts <= notifier.manager.notificationPool.capacity
    ensures notifier.state == NotifierState(Repeat(SILENT, numAlerts), DARK, [], notifier.transceiver.traffic)
    ensures notifier.transceiver.traffic.sent == []
    ensures notifier.transceiver.slots.Length == 2 * numAlerts
  {
    hide LedManager.Valid, MsgTransceiver.Valid, AlertNotifier.Valid, NotifierState.Valid;
    var notificationPool := new Pool(numAlerts);
    var manager := new LedManager(nodePool, notificationPool, durationMs, marginMs);
    var transceiver := new MsgTransceiver(2 * numAlerts);
    transceiver.Init();
    notifier := new AlertNotifier(numAlerts, transceiver, manager);
  }

  /** All of them, and the raisers. */
  method CreateBank(numAlerts: nat, nodePool: Pool, durationMs: nat, marginMs: nat) returns (bank: RaiserBank)
    requires numAlerts <= TWO_TO_THE_8 && marginMs <= durationMs
    requires nodePool.live == {} && nodePool.capacity >= numAlerts
    ensures fresh(bank.Repr) && bank.Ready({})
    ensures bank.notifier.manager.list.pool == nodePool && bank.notifier.numAlerts == numAlerts == |bank.raisers|
    ensures bank.states == Repeat(INITIAL, numAlerts) && bank.logs == Repeat([], numAlerts)
    ensures bank.notifier.state == NotifierState(Repeat(SILENT, numAlerts), DARK, [], bank.notifier.transceiver.traffic)
    ensures bank.notifier.transceiver.traffic.sent == []
    ensures bank.notifier.transceiver.slots.Length == 2 * numAlerts
    ensures bank.notifier.manager.ignoreMs == durationMs - marginMs
  {
    hide AlertNotifier.Ready, RaiserBank.Ready;
    var notifier := CreateNotifier(numAlerts, nodePool, durationMs, marginMs);
    bank := new RaiserBank(notifier, {});
  }

  class Application {
    const store: RequirementStore
    const bank: RaiserBank

    /** What can be observed of the application. */
    ghost var engine: Engine
    /** The notifiers at the beginning of the event at hand, and what they have
        been told since. */
    ghost var past: NotifierState
    ghost var heard: seq<Notice>

    ghost predicate Apart()
      reads store, bank
    {
      && this !in store.Repr && this !in bank.Repr && store.nodePool !in bank.Repr
      && (forall o | o in store.Repr :: o !in bank.Repr)
      && bank.notifier.manager.list.pool == store.nodePool
      && |bank.raisers| == bank.notifier.numAlerts == store.numAlerts
      && store.nodePool.capacity == store.numAlerts + store.numAlerts * store.room
      && store.requirementPool.capacity == store.numAlerts * store.room
    }

    /** The parts work, and share the node pool properly. */
    ghost predicate Parts()
      reads store, store.Repr, bank, bank.Repr, bank.notifier, bank.notifier.Repr, store.nodePool
      ensures Parts() ==> Apart() && store.Valid() && bank.Valid()
    {
      Apart() && store.Valid() && bank.Valid() && bank.notifier.NodesReserved(store.Nodes())
    }

    ghost predicate Linked()
      reads this, store, store.Repr, bank, bank.Repr, bank.notifier, bank.notifier.Repr, store.nodePool
      ensures Linked() ==> |engine.alerts| == store.numAlerts && Apart() && store.Valid() && bank.Valid()
    {
      && Parts()
      && engine.values == store.current.values
      && Same(engine.alerts, bank.states, bank.logs, bank.notifier.state, store.groups)
      && Follows(past, heard, bank.notifier.state)
    }

    /** What holds between events. */
    ghost predicate Valid()
      reads this, store, store.Repr, bank, bank.Repr, bank.notifier, bank.notifier.Repr, store.nodePool
    {
      && Linked() && Invariant(engine)
      && store.current.Valid() && CachesSound(store.live, engine.values)
    }

    /** The initialization, with the capacities of the configuration: a node
        for every requirement and every alert, and two message slots for every
        alert. */
    constructor (numAlerts: nat, room: nat, durationMs: nat, marginMs: nat)
      requires numAlerts <= TWO_TO_THE_8 && room >= 1 && numAlerts * room <= NO_LIMIT && marginMs <= durationMs
      ensures Valid() && engine == Engines.Initially(numAlerts)
      ensures fresh(bank.Repr) && fresh(store.Repr) && fresh(store.nodePool)
      ensures store.numAlerts == numAlerts && store.room == room
      ensures NumSlots() == 2 * numAlerts && bank.notifier.manager.ignoreMs == durationMs - marginMs
    {
      hide RequirementStore.Valid, RaiserBank.Valid, NotifierState.Valid, RaiserBank.Ready, RequirementStore.Nodes;
      hide CurrentValues.Valid;
      hide Application.Valid, Engines.Initially, Repeat;
      var nodePool := new Pool(numAlerts + numAlerts * room);
      var requirementPool := new Pool(numAlerts * room);
      var b := CreateBank(numAlerts, nodePool, durationMs, marginMs);
      var s := new RequirementStore(numAlerts, room, nodePool, requirementPool);
      store, bank := s, b;
      engine := Engines.Initially(numAlerts);
      past, heard := b.notifier.state, [];
      new;
      Starts(numAlerts);
    }

    lemma Starts(n: nat)
      requires Apart() && store.Valid() && bank.Ready({}) && store.numAlerts == n
      requires store.live == {} && store.groups == Repeat([[]], n) && store.Nodes() == {}
      requires store.current.Valid() && store.current.values == map[]
      requires bank.states == Repeat(INITIAL, n) && bank.logs == Repeat([], n)
      requires bank.notifier.state == NotifierState(Repeat(SILENT, n), DARK, [], bank.notifier.transceiver.traffic)
      requires bank.notifier.transceiver.traffic.sent == [] && past == bank.notifier.state && heard == []
      requires engine == Engines.Initially(n)
      ensures Valid()
    {
      hide RequirementStore.Valid, RaiserBank.Valid, NotifierState.Valid, RaiserBank.Ready, RequirementStore.Nodes;
      bank.ReadyIs({});
      FollowsItself(bank.notifier.state);
    }

    function NumSlots(): nat {
      bank.notifier.transceiver.slots.Length
    }

    /** The bank reacts beside the store. */
    method FeedBank(id: nat, input: Input, now: nat)
      requires Parts() && id < |bank.raisers| && bank.states[id].Accepts(input)
      requires input.SetAlert? ==> input.alertId == id
      modifies bank.Repr, store.nodePool
      ensures Parts() && fresh(bank.Repr - old(bank.Repr))
      ensures bank.states == old(bank.states)[id := old(bank.states)[id].Step(input)]
      ensures bank.logs == old(bank.logs)[id := old(bank.logs)[id] + old(bank.states)[id].Emits(input)]
      ensures bank.notifier.state ==
              old(bank.notifier.state).Heard(id, Notifications(old(bank.states)[id].Emits(input)))
      ensures unchanged(store, store.current)
    {
      hide RaiserBank.Ready, RequirementStore.Valid, RaiserBank.Valid, NotifierState.Valid, AlertNotifier.NodesReserved;
      hide Debouncer.Step, Debouncer.Emits, Debouncer.Accepts, NotifierState.Heard, Notifications;
      ghost var nodes := store.Nodes();
      bank.ReadyIs(nodes);
      bank.Feed(id, input, now, nodes);
      bank.ReadyIs(nodes);
      assert store.Nodes() == nodes;
    }

    /** One input for the raiser of alert `id`. */
    method Tell(id: byte, input: Input, now: nat)
      requires Linked() && id < |engine.alerts| && engine.alerts[id].state.Accepts(input)
      requires input.SetAlert? ==> input.alertId == id
      modifies this`engine, this`heard, bank.Repr, store.nodePool
      ensures Linked() && fresh(bank.Repr - old(bank.Repr))
      ensures engine == old(engine).(alerts := old(engine.alerts)[id := old(engine.alerts[id]).Told(input)])
      ensures heard == old(heard) + NoticesOf(old(engine.alerts)[id], id, input)
    {
      hide Application.Parts, RequirementStore.Valid, RaiserBank.Valid, NotifierState.Valid, Same, NotifierState.Heard;
      hide Debouncer.Step, Debouncer.Emits, Debouncer.Accepts, Notifications, Follows, AlertState.Told, NoticesOf;
      SameSizes(engine.alerts, bank.states, bank.logs, bank.notifier.state, store.groups, id);
      ghost var states, logs, s := bank.states, bank.logs, bank.notifier.state;
      bank.StateValid(id);
      FeedBank(id, input, now);
      SameTold(engine.alerts, states, logs, s, store.groups, id, input, bank.notifier.state);
      ghost var more := NoticesOf(engine.alerts[id], id, input);
      NoticesAre(engine.alerts[id], id, input);
      FollowsOn(past, heard, s, id, Notifications(states[id].Emits(input)), more);
      heard := heard + more;
      engine := engine.(alerts := engine.alerts[id := engine.alerts[id].Told(input)]);
    }

    /** The calls of the adder on the notifiers. */
    method EnableNotifications(id: nat, onConnectivity: bool, led: Option<Led>)
      requires Linked() && id < |engine.alerts|
      requires engine.alerts[id].setting == SILENT && !engine.alerts[id].state.raised
      modifies this`engine, bank.Repr
      ensures Linked() && bank.Repr == old(bank.Repr)
      ensures engine == old(engine).(alerts :=
                old(engine.alerts)[id := old(engine.alerts[id]).(setting := Setting(onConnectivity, led))])
    {
      hide RaiserBank.Ready, RequirementStore.Valid, RaiserBank.Valid, NotifierState.Valid;
      hide AlertNotifier.NodesReserved, Same;
      SameSizes(engine.alerts, bank.states, bank.logs, bank.notifier.state, store.groups, id);
      ghost var s, nodes := bank.notifier.state, store.Nodes();
      bank.ReadyIs(nodes);
      bank.EnableNotifications(id, onConnectivity, led, nodes);
      bank.ReadyIs(nodes);
      assert store.Nodes() == nodes;
      SameSet(engine.alerts, bank.states, bank.logs, s, store.groups, id, Setting(onConnectivity, led),
              bank.notifier.state);
      engine := engine.(alerts := engine.alerts[id := engine.alerts[id].(setting := Setting(onConnectivity, led))]);
    }

    method DisableConnectivity(id: nat)
      requires Linked() && id < |engine.alerts|
      modifies this`engine, bank.Repr
      ensures Linked() && bank.Repr == old(bank.Repr)
      ensures var setting := old(engine.alerts[id]).setting.(connectivity := false);
              engine == old(engine).(alerts := old(engine.alerts)[id := old(engine.alerts[id]).(setting := setting)])
    {
      hide RaiserBank.Ready, RequirementStore.Valid, RaiserBank.Valid, NotifierState.Valid;
      hide AlertNotifier.NodesReserved, Same;
      SameSizes(engine.alerts, bank.states, bank.logs, bank.notifier.state, store.groups, id);
      ghost var s, nodes := bank.notifier.state, store.Nodes();
      ghost var setting := engine.alerts[id].setting.(connectivity := false);
      bank.ReadyIs(nodes);
      bank.DisableConnectivity(id, nodes);
      bank.ReadyIs(nodes);
      assert store.Nodes() == nodes;
      SameSet(engine.alerts, bank.states, bank.logs, s, store.groups, id, setting, bank.notifier.state);
      engine := engine.(alerts := engine.alerts[id := engine.alerts[id].(setting := setting)]);
    }

    method DisableLed(id: nat)
      requires Linked() && id < |engine.alerts| && !engine.alerts[id].state.raised
      modifies this`engine, bank.Repr
      ensures Linked() && bank.Repr == old(bank.Repr)
      ensures var setting := old(engine.alerts[id]).setting.(led := None);
              engine == old(engine).(alerts := old(engine.alerts)[id := old(engine.alerts[id]).(setting := setting)])
    {
      hide RaiserBank.Ready, RequirementStore.Valid, RaiserBank.Valid, NotifierState.Valid;
      hide AlertNotifier.NodesReserved, Same;
      SameSizes(engine.alerts, bank.states, bank.logs, bank.notifier.state, store.groups, id);
      ghost var s, nodes := bank.notifier.state, store.Nodes();
      ghost var setting := engine.alerts[id].setting.(led := None);
      bank.ReadyIs(nodes);
      bank.DisableLed(id, nodes);
      bank.ReadyIs(nodes);
      assert store.Nodes() == nodes;
      SameSet(engine.alerts, bank.states, bank.logs, s, store.groups, id, setting, bank.notifier.state);
      engine := engine.(alerts := engine.alerts[id := engine.alerts[id].(setting := setting)]);
    }

    method EvaluateRequirement(r: VariableRequirement) returns (changed: bool)
      requires Linked() && r in store.live && Domain.Ready(engine.values)
      modifies r
      ensures Linked() && r.Settled(engine.values)
      ensures changed <==> r.CacheOf() != old(r.CacheOf())
    {
      hide RaiserBank.Ready, RequirementStore.Valid, RaiserBank.Valid, NotifierState.Valid;
      hide AlertNotifier.NodesReserved, Same;
      ghost var nodes := store.Nodes();
      changed := store.EvaluateRequirement(r);
      assert store.Nodes() == nodes;
    }

    method EvaluateCondition(id: byte) returns (result: bool)
      requires Linked() && id < |engine.alerts| && engine.alerts[id].formula != [] && Domain.Ready(engine.values)
      modifies OfAlert(store.live, id)
      ensures Linked() && result == EvalCnf(engine.alerts[id].formula, engine.values)
      ensures forall r | r in OfAlert(store.live, id) :: r.CacheOf() == old(r.CacheOf()) || r.Settled(engine.values)
    {
      hide RaiserBank.Ready, RequirementStore.Valid, RaiserBank.Valid, NotifierState.Valid;
      hide AlertNotifier.NodesReserved, Same, EvalCnf;
      SameSizes(engine.alerts, bank.states, bank.logs, bank.notifier.state, store.groups, id);
      ghost var nodes := store.Nodes();
      result := store.EvaluateCondition(id, engine.alerts[id].formula);
      assert store.Nodes() == nodes;
    }

    /** There is room in all pools for the requirements of one more alert. */
    lemma RoomToBuild(id: nat)
      requires Linked() && id < |engine.alerts| && store.groups[id] == [[]]
      ensures |store.nodePool.live| + store.room <= store.nodePool.capacity
      ensures |store.live| + store.room <= store.requirementPool.capacity
    {
      hide RequirementStore.Valid, RaiserBank.Valid, NotifierState.Valid, Same;
      var leds := bank.notifier.manager.list.NodeSet();
      bank.LedNodesBound();
      store.LiveBound();
      store.RoomForAlert(id);
      assert store.nodePool.live == leds + store.Nodes();
    }

    lemma LedListInBank()
      requires bank.Valid()
      ensures bank.notifier.manager.list in bank.Repr
    {
    }

    /** Nodes that come to the lists of the requirements only. */
    lemma NodesCome(nodes: set<object>, pool: set<object>, added: set<object>)
      requires Apart() && store.Valid() && bank.Valid()
      requires pool == bank.notifier.manager.list.NodeSet() + nodes && bank.notifier.manager.list.NodeSet() !! nodes
      requires bank.notifier.manager.list.NodeSet() !! added
      requires store.nodePool.live == pool + added && store.Nodes() == nodes + added
      ensures bank.notifier.NodesReserved(store.Nodes())
    {
      hide RequirementStore.Valid, RaiserBank.Valid, NotifierState.Valid, RequirementStore.Nodes;
      store.LiveBound();
    }

    /** Building a condition does not disturb the raisers. */
    method BuildBeside(id: byte, requirements: seq<FlatRequirement>) returns (ghost added: set<object>)
      requires Apart() && store.Valid() && bank.Valid() && store.Nodes() <= store.nodePool.live
      requires id < store.numAlerts && store.groups[id] == [[]]
      requires |store.nodePool.live| + store.room <= store.nodePool.capacity
      requires |store.live| + store.room <= store.requirementPool.capacity
      requires FlatOperatorsKnown(requirements) && |requirements| <= store.room
      modifies store, store.conditions[id], store.conditions[id].variableRequirements
      modifies store.temperatures, store.pressures, store.humidities, store.lightIntensities
      modifies store.nodePool, store.requirementPool
      ensures Apart() && store.Valid() && bank.Valid()
      ensures bank.notifier.manager.list.NodeSet() == old(bank.notifier.manager.list.NodeSet())
      ensures fresh(store.Repr - old(store.Repr))
      ensures old(store.live) <= store.live && fresh(store.live - old(store.live))
      ensures forall r | r in store.live && r !in old(store.live) :: r.CacheOf() == UNEVALUATED
      ensures store.groups == old(store.groups)[id := Built(requirements)]
      ensures fresh(added) && store.nodePool.live == old(store.nodePool.live) + added
      ensures store.Nodes() == old(store.Nodes()) + added
    {
      hide RequirementStore.Valid, RaiserBank.Valid, NotifierState.Valid, Built, RequirementStore.Nodes;
      hide LinkedList.NodeSet;
      LedListInBank();
      added := store.BuildCondition(id, requirements);
    }

    method BuildInStore(id: byte, requirements: seq<FlatRequirement>, ghost formula: Cnf)
      requires Parts() && id < store.numAlerts && store.groups[id] == [[]]
      requires |store.nodePool.live| + store.room <= store.nodePool.capacity
      requires |store.live| + store.room <= store.requirementPool.capacity
      requires FlatOperatorsKnown(requirements) && |requirements| <= store.room
      requires Built(requirements) == formula + [[]]
      modifies store, store.conditions[id], store.conditions[id].variableRequirements
      modifies store.temperatures, store.pressures, store.humidities, store.lightIntensities
      modifies store.nodePool, store.requirementPool
      ensures Parts() && fresh(store.Repr - old(store.Repr))
      ensures old(store.live) <= store.live && fresh(store.live - old(store.live))
      ensures forall r | r in store.live && r !in old(store.live) :: r.CacheOf() == UNEVALUATED
      ensures store.groups == old(store.groups)[id := formula + [[]]]
    {
      hide RequirementStore.Valid, RaiserBank.Valid, NotifierState.Valid, Built, RequirementStore.Nodes;
      hide LinkedList.NodeSet;
      ghost var nodes, pool := store.Nodes(), store.nodePool.live;
      ghost var added := BuildBeside(id, requirements);
      NodesCome(nodes, pool, added);
    }

    method BuildCondition(id: byte, requirements: seq<FlatRequirement>, ghost formula: Cnf)
      requires Linked() && id < |engine.alerts| && engine.alerts[id].formula == []
      requires FlatOperatorsKnown(requirements) && |requirements| <= store.room
      requires Built(requirements) == formula + [[]]
      modifies this`engine, store, store.conditions[id], store.conditions[id].variableRequirements
      modifies store.temperatures, store.pressures, store.humidities, store.lightIntensities
      modifies store.nodePool, store.requirementPool
      ensures Linked() && fresh(store.Repr - old(store.Repr))
      ensures old(store.live) <= store.live && fresh(store.live - old(store.live))
      ensures forall r | r in store.live && r !in old(store.live) :: r.CacheOf() == UNEVALUATED
      ensures engine == old(engine).(alerts := old(engine.alerts)[id := old(engine.alerts[id]).(formula := formula)])
    {
      hide RequirementStore.Valid, RaiserBank.Valid, NotifierState.Valid, Application.Parts, Same, Built, Follows;
      SameSizes(engine.alerts, bank.states, bank.logs, bank.notifier.state, store.groups, id);
      RoomToBuild(id);
      ghost var groups := store.groups;
      BuildInStore(id, requirements, formula);
      SameBuilt(engine.alerts, bank.states, bank.logs, bank.notifier.state, groups, id, formula);
      engine := engine.(alerts := engine.alerts[id := engine.alerts[id].(formula := formula)]);
    }

    lemma NodesGo(nodes: set<object>, pool: set<object>)
      requires Apart() && store.Valid() && bank.Valid()
      requires pool == bank.notifier.manager.list.NodeSet() + nodes && bank.notifier.manager.list.NodeSet() !! nodes
      requires store.Nodes() <= nodes && store.nodePool.live == pool - (nodes - store.Nodes())
      ensures bank.notifier.NodesReserved(store.Nodes())
    {
      hide RequirementStore.Valid, RaiserBank.Valid, NotifierState.Valid, RequirementStore.Nodes;
      store.LiveBound();
    }

    /** Clearing a condition does not disturb the raisers. */
    method ClearBeside(id: byte)
      requires Apart() && store.Valid() && bank.Valid() && store.Nodes() <= store.nodePool.live && id < store.numAlerts
      modifies store.Repr, store.nodePool
      ensures Apart() && store.Valid() && bank.Valid() && store.Repr == old(store.Repr)
      ensures bank.notifier.manager.list.NodeSet() == old(bank.notifier.manager.list.NodeSet())
      ensures store.live == old(store.live) - OfAlert(old(store.live), id)
      ensures forall r | r in store.live :: r.CacheOf() == old(r.CacheOf())
      ensures store.groups == old(store.groups)[id := [[]]] && unchanged(store.current)
      ensures store.Nodes() <= old(store.Nodes())
      ensures store.nodePool.live == old(store.nodePool.live) - (old(store.Nodes()) - store.Nodes())
    {
      hide RequirementStore.Valid, RaiserBank.Valid, NotifierState.Valid, RequirementStore.Nodes, LinkedList.NodeSet;
      hide OfAlert;
      LedListInBank();
      store.LiveBound();
      store.NodesAreNodes();
      store.RemoveAlert(id);
    }

    method ClearInStore(id: byte)
      requires Parts() && id < store.numAlerts
      modifies store.Repr, store.nodePool
      ensures Parts() && store.Repr == old(store.Repr)
      ensures store.live == old(store.live) - OfAlert(old(store.live), id)
      ensures forall r | r in store.live :: r.CacheOf() == old(r.CacheOf())
      ensures store.groups == old(store.groups)[id := [[]]] && unchanged(store.current)
    {
      hide RequirementStore.Valid, RaiserBank.Valid, NotifierState.Valid, RequirementStore.Nodes, LinkedList.NodeSet;
      hide OfAlert;
      ghost var nodes, pool := store.Nodes(), store.nodePool.live;
      ClearBeside(id);
      NodesGo(nodes, pool);
    }

    method ClearCondition(id: byte)
      requires Linked() && id < |engine.alerts|
      modifies this`engine, store.Repr, store.nodePool
      ensures Linked() && store.Repr == old(store.Repr)
      ensures store.live == old(store.live) - OfAlert(old(store.live), id)
      ensures forall r | r in store.live :: r.CacheOf() == old(r.CacheOf())
      ensures unchanged(store.current)
      ensures engine == old(engine).(alerts := old(engine.alerts)[id := old(engine.alerts[id]).(formula := [])])
    {
      hide RequirementStore.Valid, RaiserBank.Valid, NotifierState.Valid, Application.Parts, Same, OfAlert;
      SameSizes(engine.alerts, bank.states, bank.logs, bank.notifier.state, store.groups, id);
      ghost var groups := store.groups;
      ClearInStore(id);
      ghost var none: Cnf := [];
      assert none + [[]] == [[]];
      SameBuilt(engine.alerts, bank.states, bank.logs, bank.notifier.state, groups, id, none);
      engine := engine.(alerts := engine.alerts[id := engine.alerts[id].(formula := [])]);
    }

    /** During a sweep through requirement lists from `e0` and `caches` on, when
        the requirements in `visited` have been evaluated. The alerts that this
        fed have been evaluated, in order, and no other alert has changed. */
    ghost predicate Sweeping(e0: Engine, caches: map<VariableRequirement, Cache>, visited: seq<VariableRequirement>)
      reads this, store, store.live
    {
      var fed := FedBy(visited, caches, e0.values);
      && AlertsSwept(engine, e0, fed) && CachesSwept(store.live, e0.values, fed, caches, visited)
      && heard == NoticesFor(e0.alerts, e0.values, fed)
    }

    /** Only alerts with a condition have requirements. */
    lemma HasCondition(r: VariableRequirement)
      requires Linked() && r in store.live
      ensures r.alertId < |engine.alerts| && engine.alerts[r.alertId].formula != []
    {
      hide RequirementStore.Valid, RaiserBank.Valid, NotifierState.Valid, Same;
      var id := r.alertId;
      store.Apart(id, Temperature);
      SameSizes(engine.alerts, bank.states, bank.logs, bank.notifier.state, store.groups, id);
      store.RoomForCondition(id);
      assert r in OfAlert(store.live, id);
      EmptySize();
    }

    lemma OfSetAlert(r: VariableRequirement, e0: Engine, caches: map<VariableRequirement, Cache>,
                     visited: seq<VariableRequirement>)
      requires Linked() && Sweeping(e0, caches, visited) && AllFit(e0) && r in store.live
      ensures r.alertId < |engine.alerts|
      ensures var a := engine.alerts[r.alertId]; a.state.isSet && a.formula != []
    {
      hide RequirementStore.Valid, RaiserBank.Valid, NotifierState.Valid, Application.Linked, EvalCnf, FedBy;
      HasCondition(r);
      assert Fits(e0.alerts[r.alertId], r.alertId);
      EvaluatedTwice(e0.alerts[r.alertId], r.alertId, e0.values);
    }

    /** Evaluates the condition of an alert and tells its raiser the result. */
    method EvaluateAlert(id: byte, now: nat)
      requires Linked() && id < |engine.alerts| && Domain.Ready(engine.values)
      requires engine.alerts[id].state.isSet && engine.alerts[id].formula != []
      modifies this`engine, this`heard, OfAlert(store.live, id), bank.Repr, store.nodePool
      ensures Linked() && fresh(bank.Repr - old(bank.Repr))
      ensures engine ==
              old(engine).(alerts := old(engine.alerts)[id := old(engine.alerts[id].Evaluated(engine.values))])
      ensures heard == old(heard) + VerdictNotices(old(engine.alerts)[id], id, engine.values)
      ensures forall r | r in OfAlert(store.live, id) :: r.CacheOf() == old(r.CacheOf()) || r.Settled(engine.values)
    {
      hide RequirementStore.Valid, RaiserBank.Valid, NotifierState.Valid, Application.Linked, EvalCnf, OfAlert;
      var result := EvaluateCondition(id);
      LiveApart();
      label evaluated:
      Tell(id, SetResult(result), now);
      forall r | r in OfAlert(store.live, id) ensures r.CacheOf() == old@evaluated(r.CacheOf()) {
      }
    }

    lemma LiveApart()
      requires Linked()
      ensures this !in bank.Repr && this !in store.Repr && store.current !in bank.Repr && store !in bank.Repr
      ensures forall r: object | r in store.live :: r !in bank.Repr
      ensures forall id :: OfAlert(store.live, id) <= store.live
    {
    }

    /** The first half of a visit: a changed result will have to be told. */
    method Visit(r: VariableRequirement, ghost fed: seq<int>, ghost caches: map<VariableRequirement, Cache>,
                 ghost visited: seq<VariableRequirement>)
      returns (changed: bool)
      requires Linked() && r in store.live && Domain.Ready(engine.values)
      requires CachesSwept(store.live, engine.values, fed, caches, visited)
      modifies r
      ensures Linked()
      ensures CachesSwept(store.live, engine.values, FedOn(fed, r, caches, engine.values), caches, visited + [r])
      ensures FedOn(fed, r, caches, engine.values) ==
              if !changed || r.alertId in fed then fed else fed + [r.alertId as int]
    {
      hide RequirementStore.Valid, RaiserBank.Valid, NotifierState.Valid, Application.Linked;
      changed := EvaluateRequirement(r);
    }

    /** The second half. */
    method EvaluateSwept(id: byte, now: nat, ghost fed: seq<int>, ghost caches: map<VariableRequirement, Cache>,
                         ghost visited: seq<VariableRequirement>)
      requires Linked() && id < |engine.alerts| && Domain.Ready(engine.values) && id in fed
      requires engine.alerts[id].state.isSet && engine.alerts[id].formula != []
      requires CachesSwept(store.live, engine.values, fed, caches, visited)
      modifies this`engine, this`heard, store.live, bank.Repr, store.nodePool
      ensures Linked() && fresh(bank.Repr - old(bank.Repr))
      ensures engine ==
              old(engine).(alerts := old(engine.alerts)[id := old(engine.alerts[id].Evaluated(engine.values))])
      ensures heard == old(heard) + VerdictNotices(old(engine.alerts)[id], id, engine.values)
      ensures CachesSwept(store.live, engine.values, fed, caches, visited)
    {
      hide RequirementStore.Valid, RaiserBank.Valid, NotifierState.Valid, Application.Linked, EvalCnf, VerdictNotices;
      LiveApart();
      EvaluateAlert(id, now);
      forall x | x in store.live
        ensures x.CacheOf() == old(x.CacheOf()) || (x.alertId == id && x.Settled(engine.values))
      {
        assert x.alertId == id ==> x in OfAlert(store.live, id);
      }
    }

    /** The callback of the sweeps: evaluates one requirement, and if its result
        changed also the condition it is part of. */
    method EvaluateVariableRequirement(r: VariableRequirement, now: nat, ghost e0: Engine,
                                       ghost caches: map<VariableRequirement, Cache>,
                                       ghost visited: seq<VariableRequirement>)
      requires Linked() && Sweeping(e0, caches, visited) && AllFit(e0)
      requires r in store.live && Domain.Ready(e0.values)
      modifies this`engine, this`heard, store.live, bank.Repr, store.nodePool
      ensures Linked() && Sweeping(e0, caches, visited + [r])
      ensures fresh(bank.Repr - old(bank.Repr))
    {
      hide RequirementStore.Valid, RaiserBank.Valid, NotifierState.Valid, Application.Linked, EvalCnf, AlertsSwept;
      hide CachesSwept, AllFit, FedBy, FedOn, NoticesFor, VerdictNotices;
      OfSetAlert(r, e0, caches, visited);
      ghost var fed := FedBy(visited, caches, e0.values);
      FedByMore(visited, r, caches, e0.values);
      AlertsSweptMore(engine, e0, fed, r.alertId);
      var changed := Visit(r, fed, caches, visited);
      if changed {
        EvaluateSwept(r.alertId, now, FedOn(fed, r, caches, e0.values), caches, visited + [r]);
      }
    }

    /** One turn of the walk through the list of a variable. */
    method VisitNode(v: Variable, node: Node<VariableRequirement>, ghost k: nat, now: nat, ghost e0: Engine,
                     ghost caches: map<VariableRequirement, Cache>, ghost visited: seq<VariableRequirement>)
      returns (next: Node?<VariableRequirement>)
      requires Linked() && Sweeping(e0, caches, visited) && AllFit(e0) && Domain.Ready(e0.values)
      requires k < |store.List(v).nodes| && node == store.List(v).nodes[k]
      modifies this`engine, this`heard, store.live, bank.Repr, store.nodePool
      ensures Linked() && Sweeping(e0, caches, visited + [node.element])
      ensures fresh(bank.Repr - old(bank.Repr))
      ensures store.List(v).nodes == old(store.List(v).nodes) && next == At(store.List(v).nodes, k + 1)
    {
      hide RequirementStore.Valid, RaiserBank.Valid, NotifierState.Valid, Application.Linked, Application.Sweeping;
      hide AllFit, OfVariable;
      ListsApart(v);
      store.ListNode(v, k);
      NodeIsLive(v, node.element);
      EvaluateVariableRequirement(node.element, now, e0, caches, visited);
      store.ListNode(v, k);
      next := node.next;
    }

    lemma NodeIsLive(v: Variable, r: VariableRequirement)
      requires r in OfVariable(store.live, v)
      ensures r in store.live
    {
    }

    /** The walk through the list of a variable. */
    method Sweep(v: Variable, now: nat, ghost e0: Engine, ghost caches: map<VariableRequirement, Cache>,
                 ghost visited: seq<VariableRequirement>)
      requires Linked() && Sweeping(e0, caches, visited) && AllFit(e0) && Domain.Ready(e0.values)
      modifies this`engine, this`heard, store.live, bank.Repr, store.nodePool
      ensures Linked() && Sweeping(e0, caches, visited + old(store.List(v).Contents()))
      ensures fresh(bank.Repr - old(bank.Repr))
    {
      hide RequirementStore.Valid, RaiserBank.Valid, NotifierState.Valid, Application.Linked, Application.Sweeping;
      hide AllFit, OfVariable, Application.Apart;
      ghost var nodes := store.List(v).nodes;
      ghost var contents := store.List(v).Contents();
      ghost var k := 0;
      assert visited + contents[..0] == visited;
      store.ListNode(v, 0);
      ListsApart(v);
      var node := store.List(v).head;
      while node != null
        invariant k <= |nodes| == |contents| && Linked() && Sweeping(e0, caches, visited + contents[..k])
        invariant fresh(bank.Repr - old(bank.Repr))
        invariant store.List(v).nodes == nodes && node == At(nodes, k)
        decreases |nodes| - k
      {
        assert (visited + contents[..k]) + [contents[k]] == visited + contents[..k + 1];
        node := VisitNode(v, node, k, now, e0, caches, visited + contents[..k]);
        k := k + 1;
      }
      assert contents[..k] == contents;
    }

    lemma ListsApart(v: Variable)
      requires Linked()
      ensures store !in bank.Repr && store.List(v) !in bank.Repr
    {
    }

    method TakeSample(v: Variable, x: int) returns (readyBefore: bool, readyAfter: bool)
      requires Linked() && store.current.Valid()
      modifies this`engine, store.current
      ensures Linked() && store.current.Valid()
      ensures engine == old(engine).(values := old(engine.values)[v := x])
      ensures store.current.valueChanged.Keys == engine.values.Keys
      ensures store.current.valueChanged[v] == (v !in old(engine.values) || old(engine.values)[v] != x)
      ensures readyBefore <==> Domain.Ready(old(engine.values))
      ensures readyAfter <==> Domain.Ready(engine.values)
    {
      hide RequirementStore.Valid, RaiserBank.Valid, NotifierState.Valid, Same, RequirementStore.Nodes;
      hide AlertNotifier.NodesReserved;
      ghost var nodes := store.Nodes();
      readyBefore, readyAfter := store.TakeSample(v, x);
      assert store.Nodes() == nodes;
      engine := engine.(values := engine.values[v := x]);
    }

    /** The sweeps after the sample that completes the four variables. */
    method SweepAll(now: nat, ghost caches: map<VariableRequirement, Cache>)
      requires Linked() && Sweeping(engine, caches, []) && AllFit(engine) && Domain.Ready(engine.values)
      modifies this`engine, this`heard, store.live, bank.Repr, store.nodePool
      ensures Linked()
      ensures Sweeping(old(engine), caches,
                       old(store.temperatures.Contents() + store.pressures.Contents()
                           + store.humidities.Contents() + store.lightIntensities.Contents()))
      ensures fresh(bank.Repr - old(bank.Repr))
    {
      hide RequirementStore.Valid, RaiserBank.Valid, NotifierState.Valid, Application.Linked, Application.Sweeping;
      hide AllFit, OfVariable, Application.Apart, LinkedList.Contents;
      ghost var e0 := engine;
      ghost var t, p := store.List(Temperature).Contents(), store.List(Pressure).Contents();
      ghost var h, l := store.List(Humidity).Contents(), store.List(LightIntensity).Contents();
      AllListsApart();
      assert [] + t == t;
      Sweep(Temperature, now, e0, caches, []);
      Sweep(Pressure, now, e0, caches, t);
      Sweep(Humidity, now, e0, caches, t + p);
      Sweep(LightIntensity, now, e0, caches, t + p + h);
    }

    lemma AllListsApart()
      requires Linked()
      ensures store !in bank.Repr && forall v: Variable :: store.List(v) !in bank.Repr
    {
      forall v: Variable ensures store.List(v) !in bank.Repr {
        ListsApart(v);
      }
    }

    /** The alert has not been evaluated because its verdict is still the same. */
    lemma NotFedIsSame(e0: Engine, before: Readings, caches: map<VariableRequirement, Cache>,
                       visited: seq<VariableRequirement>, i: nat)
      requires Linked() && Sweeping(e0, caches, visited) && CachesWere(caches, before)
      requires i < |e0.alerts| && AlertOk(e0.alerts[i], i, before) && i !in FedBy(visited, caches, e0.values)
      requires forall r | r in store.live ::
                 r in visited || (Domain.Ready(before) && Holds(r.comparison, before) == Holds(r.comparison, e0.values))
      ensures e0.alerts[i].Evaluated(e0.values) == e0.alerts[i]
    {
      hide RequirementStore.Valid, RaiserBank.Valid, NotifierState.Valid, Application.Parts, Same, EvalCnf, OfAlert;
      var formula := e0.alerts[i].formula;
      SameSizes(engine.alerts, bank.states, bank.logs, bank.notifier.state, store.groups, i);
      store.ComparisonsLive(i, formula);
      AlertIs(store.live, i);
      forall r | r in OfAlert(store.live, i)
        ensures Domain.Ready(before) && Holds(r.comparison, before) == Holds(r.comparison, e0.values)
      {
        assert r.CacheOf() == caches[r];
      }
      if e0.alerts[i].state.isSet {
        SameHolds(formula, before, e0.values);
        SameVerdict(e0.alerts[i], i, before, e0.values);
      }
    }

    /** After a sweep every alert is as if evaluated from scratch, and no cache
        is stale. */
    lemma SweptIsEvaluated(e0: Engine, before: Readings, caches: map<VariableRequirement, Cache>,
                           visited: seq<VariableRequirement>)
      requires Linked() && Sweeping(e0, caches, visited) && CachesWere(caches, before)
      requires Invariant(e0.(values := before)) && Domain.Ready(e0.values)
      requires forall r | r in store.live ::
                 r in visited || (Domain.Ready(before) && Holds(r.comparison, before) == Holds(r.comparison, e0.values))
      ensures engine == e0.(alerts := EvaluatedAll(e0.alerts, e0.values))
      ensures CachesSound(store.live, engine.values)
    {
      hide RequirementStore.Valid, RaiserBank.Valid, NotifierState.Valid, Application.Linked, EvalCnf;
      forall i | 0 <= i < |e0.alerts| ensures engine.alerts[i] == e0.alerts[i].Evaluated(e0.values) {
        assert AlertOk(e0.(values := before).alerts[i], i, before);
        if i !in FedBy(visited, caches, e0.values) {
          NotFedIsSame(e0, before, caches, visited, i);
        }
      }
    }

    /** The caches at the beginning of a sweep. */
    lemma SweepBegins(before: Readings)
      requires CachesSound(store.live, before) && heard == []
      ensures Sweeping(engine, store.Caches(), []) && CachesWere(store.Caches(), before)
    {
    }

    /** The list, or lists, that a sample of `v` sweeps. */
    ghost function SweepList(before: Readings, values: Readings, v: Variable): seq<VariableRequirement>
      requires v in values
      reads store.temperatures, store.pressures, store.humidities, store.lightIntensities
    {
      if !Domain.Ready(values) then []
      else if !Domain.Ready(before) then store.AllContents()
      else if before[v] == values[v] then []
      else store.List(v).Contents()
    }

    /** The sweep reaches all comparisons whose result may have changed. */
    lemma SweepReaches(before: Readings, values: Readings, v: Variable)
      requires Linked() && Domain.Ready(values) && values == before[v := values[v]]
      ensures forall r | r in store.live ::
                || r in SweepList(before, values, v)
                || (Domain.Ready(before) && Holds(r.comparison, before) == Holds(r.comparison, values))
    {
      hide RequirementStore.Valid, RaiserBank.Valid, NotifierState.Valid, Application.Linked;
      forall u: Variable ensures forall r | r in OfVariable(store.live, u) :: r in store.List(u).Contents() {
        store.ListComplete(u);
      }
      VariablesCover(store.live);
      OthersHold(store.live, v, before, values);
    }

    /** When all variables are there, the sweeps bring every alert up to date. */
    method HandleValueChange(v: Variable, first: bool, now: nat, ghost before: Readings, ghost order: seq<int>)
      requires Linked() && CachesSound(store.live, before) && Invariant(engine.(values := before)) && heard == []
      requires v in engine.values && engine.values == before[v := engine.values[v]]
      requires Domain.Ready(engine.values) && (first <==> !Domain.Ready(before))
      requires first || before[v] != engine.values[v]
      requires order == FedBy(SweepList(before, engine.values, v), store.Caches(), engine.values)
      modifies this`engine, this`heard, store.live, bank.Repr, store.nodePool
      ensures Linked() && CachesSound(store.live, engine.values) && fresh(bank.Repr - old(bank.Repr))
      ensures engine == old(engine).(alerts := EvaluatedAll(old(engine.alerts), old(engine.values)))
      ensures heard == NoticesFor(old(engine.alerts), engine.values, order)
    {
      hide RequirementStore.Valid, RaiserBank.Valid, NotifierState.Valid, Application.Linked, EvalCnf;
      hide Application.Sweeping, CachesSound, CachesWere, FedBy, NoticesFor, LinkedList.Contents;
      ghost var e0, caches, visited := engine, store.Caches(), SweepList(before, engine.values, v);
      SweepBegins(before);
      SweepReaches(before, engine.values, v);
      FitsAll(e0, before);
      if first {
        SweepAll(now, caches);
      } else {
        assert [] + visited == visited;
        Sweep(v, now, e0, caches, []);
      }
      SweptIsEvaluated(e0, before, caches, visited);
      SweepTold(e0, caches, visited);
    }

    lemma SweepTold(e0: Engine, caches: map<VariableRequirement, Cache>, visited: seq<VariableRequirement>)
      requires Sweeping(e0, caches, visited)
      ensures heard == NoticesFor(e0.alerts, e0.values, FedBy(visited, caches, e0.values)) && engine.values == e0.values
    {
    }

    /** The second half of the sample handler, once all variables are there. */
    method UpdateAlerts(v: Variable, readyBefore: bool, now: nat, ghost before: Engine, ghost order: seq<int>)
      requires Linked() && store.current.Valid() && CachesSound(store.live, before.values) && Invariant(before)
      requires v in engine.values && engine == before.(values := before.values[v := engine.values[v]])
      requires v in store.current.valueChanged && heard == []
      requires store.current.valueChanged[v] == (v !in before.values || before.values[v] != engine.values[v])
      requires Domain.Ready(engine.values) && (readyBefore <==> Domain.Ready(before.values))
      requires order == FedBy(SweepList(before.values, engine.values, v), store.Caches(), engine.values)
      modifies this`engine, this`heard, store.live, bank.Repr, store.nodePool
      ensures Linked() && CachesSound(store.live, engine.values) && fresh(bank.Repr - old(bank.Repr))
      ensures engine == old(engine).(alerts := EvaluatedAll(before.alerts, old(engine.values)))
      ensures heard == NoticesFor(before.alerts, engine.values, order)
    {
      hide RequirementStore.Valid, RaiserBank.Valid, NotifierState.Valid, Application.Linked, CachesSound;
      hide CurrentValues.Valid;
      hide Invariant, EvaluatedAll, FedBy, RequirementStore.Caches, Application.Apart;
      if !readyBefore {
        HandleValueChange(v, true, now, before.values, order);
      } else {
        var changed := store.current.IsChanged(v);
        if changed {
          HandleValueChange(v, false, now, before.values, order);
        } else {
          assert engine == before;
          NothingNew(before);
          NothingSwept(engine, store.Caches());
        }
      }
    }

    /** The order in which an event evaluates alerts. */
    ghost function OrderOf(event: Event): seq<int>
      reads this`engine, store, store.live
      reads store.temperatures, store.pressures, store.humidities, store.lightIntensities
    {
      match event
      case Sample(v, x) =>
        var values := engine.values[v := x];
        FedBy(SweepList(engine.values, values, v), store.Caches(), values)
      case _ => []
    }

    method TakeAndUpdate(v: Variable, x: int, now: nat, ghost order: seq<int>)
      requires Linked() && store.current.Valid() && CachesSound(store.live, engine.values) && Invariant(engine)
      requires heard == [] && order == OrderOf(Sample(v, x))
      modifies this`engine, this`heard, store.current, store.live, bank.Repr, store.nodePool
      ensures Linked() && CachesSound(store.live, engine.values) && store.current.Valid()
      ensures fresh(bank.Repr - old(bank.Repr))
      ensures var values := old(engine.values)[v := x];
              && engine.values == values
              && engine.alerts == (if Domain.Ready(values) then EvaluatedAll(old(engine.alerts), values)
                                   else old(engine.alerts))
              && heard == NoticesFor(old(engine.alerts), values, order)
    {
      hide RequirementStore.Valid, RaiserBank.Valid, NotifierState.Valid, Application.Linked, CachesSound;
      hide CurrentValues.Valid, Invariant, EvaluatedAll, FedBy, NoticesFor, RequirementStore.Caches;
      hide Domain.Ready, Application.Apart;
      LiveApart();
      ghost var before := engine;
      var readyBefore, readyAfter := TakeSample(v, x);
      assert order == FedBy(SweepList(before.values, engine.values, v), store.Caches(), engine.values);
      NotSwept(before, engine.values, v, store.Caches());
      assert CachesSound(store.live, before.values);
      if readyAfter {
        UpdateAlerts(v, readyBefore, now, before, order);
      } else {
        NoCacheFilled(store.live, before.values, engine.values);
      }
    }

    method NewSample(v: Variable, x: int, now: nat)
      requires Valid() && heard == []
      modifies this`engine, this`heard, store.current, store.live, bank.Repr, store.nodePool
      ensures Valid() && fresh(bank.Repr - old(bank.Repr))
      ensures engine == Step(old(engine), Sample(v, x), store.room)
      ensures heard == Notices(old(engine), Sample(v, x), old(OrderOf(Sample(v, x))), store.room)
    {
      hide RequirementStore.Valid, RaiserBank.Valid, NotifierState.Valid, Application.Linked, CachesSound;
      hide CurrentValues.Valid, Invariant, EvaluatedAll, Domain.Ready, Application.OrderOf, NoticesFor;
      StepKeeps(engine, Sample(v, x), store.room);
      TakeAndUpdate(v, x, now, OrderOf(Sample(v, x)));
    }

    lemma NotSwept(before: Engine, values: Readings, v: Variable, caches: map<VariableRequirement, Cache>)
      requires v in values
      ensures !Domain.Ready(values) ==>
                NoticesFor(before.alerts, values, FedBy(SweepList(before.values, values, v), caches, values)) == []
    {
    }

    method IsAlertSet(id: nat) returns (isSet: bool)
      requires Linked() && id < |engine.alerts|
      ensures isSet == engine.alerts[id].state.isSet
    {
      hide RequirementStore.Valid, Same;
      SameSizes(engine.alerts, bank.states, bank.logs, bank.notifier.state, store.groups, id);
      assert bank.RaiserOk(id);
      isSet := bank.raisers[id].isAlertSet;
    }

    method EvaluateSound(id: byte, now: nat)
      requires Linked() && id < |engine.alerts| && Domain.Ready(engine.values)
      requires engine.alerts[id].state.isSet && engine.alerts[id].formula != []
      requires CachesSound(store.live, engine.values)
      modifies this`engine, this`heard, store.live, bank.Repr, store.nodePool
      ensures Linked() && fresh(bank.Repr - old(bank.Repr))
      ensures engine ==
              old(engine).(alerts := old(engine.alerts)[id := old(engine.alerts[id].Evaluated(engine.values))])
      ensures heard == old(heard) + VerdictNotices(old(engine.alerts)[id], id, engine.values)
      ensures CachesSound(store.live, engine.values)
    {
      hide RequirementStore.Valid, RaiserBank.Valid, NotifierState.Valid, Application.Linked, EvalCnf;
      LiveApart();
      EvaluateAlert(id, now);
      forall x | x in store.live
        ensures x.CacheOf() == old(x.CacheOf()) || x.Settled(engine.values)
      {
        assert x.alertId == id ==> x in OfAlert(store.live, id);
      }
    }

    /** The first half of adding: notifications and raiser. */
    method SetRaiser(alert: MessageParsers.Alert, now: nat)
      requires Linked() && alert.alertId < |engine.alerts|
      requires var a := engine.alerts[alert.alertId]; a.setting == SILENT && !a.state.isSet && !a.state.raised
      requires alert.led.Some? ==> ValidLed(alert.led.value)
      modifies this`engine, this`heard, bank.Repr, store.nodePool
      ensures Linked() && fresh(bank.Repr - old(bank.Repr))
      ensures engine == old(engine).(alerts := old(engine.alerts)[alert.alertId :=
                old(engine.alerts[alert.alertId]).(setting := SettingOf(alert))
                  .Told(SetAlert(alert.alertId, alert.warmupMs, alert.cooldownMs))])
      ensures heard == old(heard)
    {
      hide RequirementStore.Valid, RaiserBank.Valid, NotifierState.Valid, Application.Linked, Notifications, NoticesOf;
      EnableNotifications(alert.alertId, alert.connectivity, SettingOf(alert).led);
      SettingIsQuiet(engine.alerts[alert.alertId], alert.alertId, alert.warmupMs, alert.cooldownMs);
      Tell(alert.alertId, SetAlert(alert.alertId, alert.warmupMs, alert.cooldownMs), now);
    }

    /** The second half: condition and lists. */
    method BuildSound(id: byte, requirements: seq<FlatRequirement>, ghost formula: Cnf)
      requires Linked() && id < |engine.alerts| && engine.alerts[id].formula == []
      requires CachesSound(store.live, engine.values)
      requires FlatOperatorsKnown(requirements) && |requirements| <= store.room
      requires Built(requirements) == formula + [[]]
      modifies this`engine, store.Repr, store.nodePool
      ensures Linked() && fresh(store.Repr - old(store.Repr)) && unchanged(store.current)
      ensures CachesSound(store.live, engine.values)
      ensures engine == old(engine).(alerts := old(engine.alerts)[id := old(engine.alerts[id]).(formula := formula)])
    {
      hide RequirementStore.Valid, RaiserBank.Valid, NotifierState.Valid, Application.Linked, Built, CachesSound;
      StoreApart(id);
      ghost var live, values := store.live, engine.values;
      BuildCondition(id, requirements, formula);
      MoreCaches(live, store.live, values);
    }

    /** Notifications, raiser, condition: the steps of the adder. */
    method SetUpAlert(alert: MessageParsers.Alert, now: nat, ghost formula: Cnf)
      requires Linked() && alert.alertId < |engine.alerts| && CachesSound(store.live, engine.values)
      requires var a := engine.alerts[alert.alertId];
               a.setting == SILENT && a.formula == [] && !a.state.isSet && !a.state.raised
      requires alert.led.Some? ==> ValidLed(alert.led.value)
      requires FlatOperatorsKnown(alert.requirements) && |alert.requirements| <= store.room
      requires Built(alert.requirements) == formula + [[]]
      modifies this`engine, this`heard, store.Repr, bank.Repr, store.nodePool
      ensures Linked() && fresh(bank.Repr - old(bank.Repr)) && fresh(store.Repr - old(store.Repr))
      ensures unchanged(store.current) && CachesSound(store.live, engine.values)
      ensures engine == old(engine).(alerts := old(engine.alerts)[alert.alertId :=
                Armed(old(engine.alerts[alert.alertId]), alert, formula)])
      ensures heard == old(heard)
    {
      hide RequirementStore.Valid, RaiserBank.Valid, NotifierState.Valid, Application.Linked, Built, CachesSound;
      hide Notifications;
      StoreApart(alert.alertId);
      SetRaiser(alert, now);
      BuildSound(alert.alertId, alert.requirements, formula);
    }

    lemma StoreApart(id: byte)
      requires Linked() && id < |engine.alerts|
      ensures {store, store.current, store.conditions[id], store.conditions[id].variableRequirements,
               store.temperatures, store.pressures, store.humidities, store.lightIntensities,
               store.requirementPool} <= store.Repr
      ensures store.live <= store.Repr && store.current !in bank.Repr && store !in bank.Repr && bank !in store.Repr
    {
    }

    method EvaluateIfReady(id: byte, now: nat)
      requires Linked() && id < |engine.alerts| && store.current.Valid()
      requires engine.alerts[id].state.isSet && engine.alerts[id].formula != []
      requires CachesSound(store.live, engine.values)
      modifies this`engine, this`heard, store.live, bank.Repr, store.nodePool
      ensures Linked() && fresh(bank.Repr - old(bank.Repr))
      ensures engine == old(engine).(alerts := old(engine.alerts)[id :=
                if Domain.Ready(engine.values) then old(engine.alerts[id].Evaluated(engine.values))
                else old(engine.alerts[id])])
      ensures heard == old(heard) +
                if Domain.Ready(engine.values) then VerdictNotices(old(engine.alerts)[id], id, engine.values) else []
      ensures CachesSound(store.live, engine.values)
    {
      hide RequirementStore.Valid, RaiserBank.Valid, NotifierState.Valid, Application.Linked, CachesSound, EvalCnf;
      hide Domain.Ready;
      hide CurrentValues.Valid;
      hide Application.Apart;
      var ready := store.current.IsReady();
      ReadyIs(ready);
      if ready {
        EvaluateSound(id, now);
      }
    }

    method SetUpAndEvaluate(alert: MessageParsers.Alert, now: nat, ghost formula: Cnf)
      requires Linked() && alert.alertId < |engine.alerts| && CachesSound(store.live, engine.values)
      requires store.current.Valid()
      requires var a := engine.alerts[alert.alertId];
               a.setting == SILENT && a.formula == [] && !a.state.isSet && !a.state.raised
      requires alert.led.Some? ==> ValidLed(alert.led.value)
      requires FlatOperatorsKnown(alert.requirements) && |alert.requirements| <= store.room
      requires Built(alert.requirements) == formula + [[]] && formula != []
      modifies this`engine, this`heard, store.Repr, bank.Repr, store.nodePool
      ensures Linked() && fresh(bank.Repr - old(bank.Repr)) && fresh(store.Repr - old(store.Repr))
      ensures store.current.Valid() && CachesSound(store.live, engine.values)
      ensures engine == old(engine).(alerts := old(engine.alerts)[alert.alertId :=
                SetUp(old(engine.alerts[alert.alertId]), alert, formula, old(engine.values))])
      ensures heard == old(heard) +
                if Domain.Ready(old(engine.values))
                then VerdictNotices(Armed(old(engine.alerts[alert.alertId]), alert, formula), alert.alertId,
                                    old(engine.values))
                else []
    {
      hide RequirementStore.Valid, RaiserBank.Valid, NotifierState.Valid, Application.Linked, CachesSound, Built;
      hide CurrentValues.Valid;
      hide Domain.Ready, Engines.Armed, Application.Apart;
      StoreApart(alert.alertId);
      SetUpAlert(alert, now, formula);
      StoreApart(alert.alertId);
      EvaluateIfReady(alert.alertId, now);
    }

    /** Sets up an acceptable alert and evaluates it if possible. */
    method AddNew(alert: MessageParsers.Alert, now: nat, ghost m: Message)
      requires Valid() && alert == Flatten(m) && |alert.requirements| <= store.room
      requires Acceptable(m, |engine.alerts|) && !engine.alerts[m.alertId].state.isSet
      modifies this`engine, this`heard, store.Repr, bank.Repr, store.nodePool
      ensures Valid() && fresh(bank.Repr - old(bank.Repr)) && fresh(store.Repr - old(store.Repr))
      ensures engine == Added(old(engine), m)
      ensures heard == old(heard) + AddedNotices(old(engine), m)
    {
      hide RequirementStore.Valid, RaiserBank.Valid, NotifierState.Valid, Application.Linked, CachesSound, Built;
      hide Stated;
      hide Engines.SetUp, CurrentValues.Valid;
      AddedKeeps(engine, m);
      AcceptableStates(m, |engine.alerts|);
      BuiltIsStated(m.groups);
      assert AlertOk(engine.alerts[m.alertId], m.alertId, engine.values);
      SetUpAndEvaluate(alert, now, Stated(m.groups));
    }

    lemma ReadyIs(ready: bool)
      requires Linked() && store.current.Valid() && (ready <==> forall v: Variable :: v in store.current.received)
      ensures ready <==> Domain.Ready(engine.values)
    {
      forall v: Variable ensures v in store.current.received <==> v in engine.values {
      }
    }

    /** alert_adder_add_alert; `m` is the message the alert was parsed from. */
    method AddAlert(alert: MessageParsers.Alert, now: nat, ghost m: Message)
      requires Valid() && alert == Flatten(m) && |alert.requirements| <= store.room
      modifies this`engine, this`heard, store.Repr, bank.Repr, store.nodePool
      ensures Valid() && fresh(bank.Repr - old(bank.Repr)) && fresh(store.Repr - old(store.Repr))
      ensures engine == Added(old(engine), m)
      ensures heard == old(heard) + AddedNotices(old(engine), m)
    {
      hide RequirementStore.Valid, RaiserBank.Valid, NotifierState.Valid, Application.Linked, CachesSound, Acceptable;
      ValidExactly(m, store.numAlerts);
      assert heard + [] == heard;
      var valid := IsAlertValid(alert, store.numAlerts);
      if !valid { return; }
      var isSet := IsAlertSet(alert.alertId);
      if isSet { return; }
      AddNew(alert, now, m);
    }

    /** The first half of removing: notifications and raiser. */
    method UnsetRaiser(id: byte, now: nat)
      requires Linked() && id < |engine.alerts| && engine.alerts[id].state.isSet
      modifies this`engine, this`heard, bank.Repr, store.nodePool
      ensures Linked() && fresh(bank.Repr - old(bank.Repr))
      ensures engine == old(engine).(alerts := old(engine.alerts)[id := Disarmed(old(engine.alerts[id]))])
      ensures heard == old(heard) + RemovedNotices(old(engine), id)
    {
      hide RequirementStore.Valid, RaiserBank.Valid, NotifierState.Valid, Application.Linked, Application.Apart;
      hide Notifications, NoticesOf;
      LiveApart();
      DisableConnectivity(id);
      Tell(id, UnsetAlert, now);
      DisableLed(id);
    }

    /** The steps of the remover. */
    method TearDownAlert(id: byte, now: nat)
      requires Linked() && id < |engine.alerts| && engine.alerts[id].state.isSet
      requires store.current.Valid() && CachesSound(store.live, engine.values)
      modifies this`engine, this`heard, store.Repr, bank.Repr, store.nodePool
      ensures Linked() && fresh(bank.Repr - old(bank.Repr)) && fresh(store.Repr - old(store.Repr))
      ensures store.current.Valid() && CachesSound(store.live, engine.values)
      ensures engine == Removed(old(engine), id)
      ensures heard == old(heard) + RemovedNotices(old(engine), id)
    {
      hide RequirementStore.Valid, RaiserBank.Valid, NotifierState.Valid, Application.Linked, CachesSound;
      hide CurrentValues.Valid, OfAlert;
      hide Application.Apart, Disarmed, RemovedNotices;
      StoreApart(id);
      LiveApart();
      UnsetRaiser(id, now);
      StoreApart(id);
      ClearSound(id);
    }

    /** alert_remover_remove_alert. */
    method RemoveAlert(id: byte, now: nat)
      requires Valid()
      modifies this`engine, this`heard, store.Repr, bank.Repr, store.nodePool
      ensures Valid() && fresh(bank.Repr - old(bank.Repr)) && fresh(store.Repr - old(store.Repr))
      ensures engine == Removed(old(engine), id)
      ensures heard == old(heard) + RemovedNotices(old(engine), id)
    {
      hide RequirementStore.Valid, RaiserBank.Valid, NotifierState.Valid, Application.Linked, CachesSound;
      hide CurrentValues.Valid, Invariant;
      RemovedKeeps(engine, id);
      assert heard + [] == heard;
      if !IsAlertIdValid(id, store.numAlerts) { return; }
      var isSet := IsAlertSet(id);
      if !isSet { return; }
      TearDownAlert(id, now);
    }

    method ClearSound(id: byte)
      requires Linked() && id < |engine.alerts| && CachesSound(store.live, engine.values)
      modifies this`engine, store.Repr, store.nodePool
      ensures Linked() && store.Repr == old(store.Repr) && unchanged(store.current)
      ensures CachesSound(store.live, engine.values)
      ensures engine == old(engine).(alerts := old(engine.alerts)[id := old(engine.alerts[id]).(formula := [])])
    {
      hide RequirementStore.Valid, RaiserBank.Valid, NotifierState.Valid, Application.Linked;
      ghost var live := store.live;
      ClearCondition(id);
      assert store.live <= live;
    }

    /** The receive callback of the transceiver. */
    method Receive(bytes: seq<byte>, now: nat)
      requires Valid()
      modifies this`engine, this`heard, store.Repr, bank.Repr, store.nodePool
      ensures Valid() && fresh(bank.Repr - old(bank.Repr)) && fresh(store.Repr - old(store.Repr))
      ensures engine == Step(old(engine), Event.Receive(bytes), store.room)
      ensures heard == old(heard) + Notices(old(engine), Event.Receive(bytes), [], store.room)
    {
      hide Application.Valid, Added, Removed, Parse;
      if bytes == [] { return; }
      match bytes[0] {
        case 1 =>
          var payload := bytes[1..];
          if |payload| != 1 { return; }
          RemoveAlert(payload[0], now);
        case 2 =>
          var alert := ParseAddAlert(bytes[1..], store.room);
          if alert.Some? {
            ghost var m := Parse(bytes[1..], store.room).value;
            ParseIsExact(bytes[1..], store.room);
            AddAlert(alert.value, now, m);
          }
        case _ =>
      }
    }

    /** An expiry of one of the timers of an alert, whenever it was started. */
    method TimerExpired(id: nat, timer: Timer, now: nat)
      requires Valid() && id < store.numAlerts
      modifies this`engine, this`heard, bank.Repr, store.nodePool
      ensures Valid() && fresh(bank.Repr - old(bank.Repr))
      ensures engine == Step(old(engine), Event.TimerExpired(id, timer), store.room)
      ensures heard == old(heard) + Notices(old(engine), Event.TimerExpired(id, timer), [], store.room)
    {
      hide RequirementStore.Valid, RaiserBank.Valid, NotifierState.Valid, Application.Linked, CachesSound;
      hide CurrentValues.Valid, Invariant;
      StepKeeps(engine, Event.TimerExpired(id, timer), store.room);
      LiveApart();
      assert store.numAlerts <= TWO_TO_THE_8;
      Tell(id, Expired(timer), now);
    }

    /** An expiry of the timer of the LED manager. */
    method LedTimerExpired(now: nat)
      requires Valid()
      modifies this`past, this`heard, bank.Repr
      ensures Valid() && bank.Repr == old(bank.Repr)
      ensures bank.notifier.state == old(bank.notifier.Ticking(now))
      ensures var r, manager := old(bank.notifier.state).display, bank.notifier.manager;
              bank.notifier.state.display ==
              if |r.entries| >= 2
                 && (now - old(manager.timerStart) - manager.ignoreMs) % TWO_TO_THE_32 < TWO_TO_THE_31
              then r.Next() else r
    {
      hide Application.Valid, NotifierState.Valid;
      LedShows(now);
      TickBank(now);
    }

    method TickBank(now: nat)
      requires Valid()
      modifies this`past, this`heard, bank.Repr
      ensures Valid() && bank.Repr == old(bank.Repr)
      ensures bank.notifier.state == old(bank.notifier.Ticking(now))
    {
      hide RequirementStore.Valid, RaiserBank.Valid, NotifierState.Valid, RaiserBank.Ready;
      hide AlertNotifier.NodesReserved, Same;
      hide CachesSound, Invariant;
      ghost var s, nodes := bank.notifier.state, store.Nodes();
      bank.ReadyIs(nodes);
      StateIsValid(s);
      bank.LedTick(now, nodes);
      bank.ReadyIs(nodes);
      assert store.Nodes() == nodes;
      SameTicked(engine.alerts, bank.states, bank.logs, s, store.groups);
      past, heard := bank.notifier.state, [];
      FollowsItself(past);
    }

    /** The network reports on the status message in a slot. */
    method Transmitted(slot: nat, result: bool)
      requires Valid() && slot < NumSlots()
      modifies this`past, this`heard, bank.Repr
      ensures Valid() && bank.Repr == old(bank.Repr)
      ensures bank.notifier.state == old(bank.notifier.state).(traffic := bank.notifier.state.traffic)
      ensures Completes(old(bank.notifier.state).traffic, bank.notifier.state.traffic, slot, result)
    {
      hide RequirementStore.Valid, RaiserBank.Valid, NotifierState.Valid, RaiserBank.Ready;
      hide AlertNotifier.NodesReserved, Same;
      hide CachesSound, Invariant, Completes;
      ghost var s, nodes := bank.notifier.state, store.Nodes();
      bank.ReadyIs(nodes);
      bank.TransmitComplete(slot, result, nodes);
      bank.ReadyIs(nodes);
      assert store.Nodes() == nodes;
      SameCompleted(engine.alerts, bank.states, bank.logs, s, store.groups, bank.notifier.state.traffic, slot, result);
      past, heard := bank.notifier.state, [];
      FollowsItself(past);
    }

    predicate CanHandle(event: Event) {
      match event
      case TimerExpired(id, _) => id < store.numAlerts
      case Transmitted(slot, _) => slot < NumSlots()
      case _ => true
    }

    /** One event, at real time `now`. Whatever it is, no assert fires, and what
        can be observed is what evaluating from scratch would give. */
    method Handle(event: Event, now: nat)
      requires Valid() && CanHandle(event)
      modifies this`engine, this`past, this`heard, store.Repr, bank.Repr, store.nodePool
      ensures Valid() && fresh(bank.Repr - old(bank.Repr)) && fresh(store.Repr - old(store.Repr))
      ensures Possible(old(engine), event) && engine == Step(old(engine), event, store.room)
      ensures Extends(old(bank.notifier.state), bank.notifier.state)
      ensures match event
              case LedTimerExpired => bank.notifier.state == old(bank.notifier.Ticking(now))
              case Transmitted(slot, result) =>
                && bank.notifier.state == old(bank.notifier.state).(traffic := bank.notifier.state.traffic)
                && Completes(old(bank.notifier.state).traffic, bank.notifier.state.traffic, slot, result)
              case _ =>
                && Notified(old(bank.notifier.state), bank.notifier.state)
                && Follows(old(bank.notifier.state), Notices(old(engine), event, old(OrderOf(event)), store.room),
                           bank.notifier.state)
    {
      hide Application.Valid, Received, NotifierState.Valid, Completes, Notified, Notices, Follows, Application.OrderOf;
      InStore();
      match event {
        case LedTimerExpired =>
          TickingExtends(bank.notifier.state, bank.notifier.Ticking(now));
          LedTimerExpired(now);
        case Transmitted(slot, result) =>
          Transmitted(slot, result);
          CompletesExtends(old(bank.notifier.state).traffic, bank.notifier.state.traffic, slot, result);
        case _ =>
          Begin();
          React(event, now);
          SinceBegin();
      }
    }

    /** The events that matter to the alerts. */
    method React(event: Event, now: nat)
      requires Valid() && CanHandle(event) && !event.LedTimerExpired? && !event.Transmitted? && heard == []
      modifies this`engine, this`heard, store.Repr, bank.Repr, store.nodePool
      ensures Valid() && fresh(bank.Repr - old(bank.Repr)) && fresh(store.Repr - old(store.Repr))
      ensures Possible(old(engine), event) && engine == Step(old(engine), event, store.room)
      ensures heard == Notices(old(engine), event, old(OrderOf(event)), store.room)
    {
      hide Application.Valid, Step, NotifierState.Valid, Notices, RequirementStore.Valid, RaiserBank.Valid;
      hide FedBy, Application.SweepList;
      InStore();
      match event {
        case Sample(v, x) => NewSample(v, x, now);
        case Receive(bytes) => Receive(bytes, now);
        case TimerExpired(id, timer) => TimerExpired(id, timer, now);
      }
    }

    ghost method Begin()
      requires Valid()
      modifies this`past, this`heard
      ensures Valid() && past == bank.notifier.state && heard == []
    {
      hide RequirementStore.Valid, RaiserBank.Valid, NotifierState.Valid, Same, AlertNotifier.NodesReserved;
      past, heard := bank.notifier.state, [];
      FollowsItself(past);
    }

    lemma SinceBegin()
      requires Valid()
      ensures Follows(past, heard, bank.notifier.state)
      ensures Notified(past, bank.notifier.state) && Extends(past, bank.notifier.state)
    {
      hide RequirementStore.Valid, RaiserBank.Valid, NotifierState.Valid, Same, AlertNotifier.NodesReserved;
      FollowsNotified(past, heard, bank.notifier.state);
    }

    lemma InStore()
      requires Valid()
      ensures |engine.alerts| == store.numAlerts && bank.notifier.state.display.Valid()
      ensures store in store.Repr && store.current in store.Repr && store.live <= store.Repr
      ensures store !in bank.Repr && bank !in store.Repr && this !in bank.Repr && this !in store.Repr
    {
    }

    /** Any number of events in any order. */
    method Run(events: seq<Event>, times: seq<nat>)
      requires Valid() && |times| == |events|
      requires forall event | event in events :: CanHandle(event)
      modifies this`engine, this`past, this`heard, store.Repr, bank.Repr, store.nodePool
      ensures Valid() && fresh(bank.Repr - old(bank.Repr)) && fresh(store.Repr - old(store.Repr))
      ensures Extends(old(bank.notifier.state), bank.notifier.state)
      ensures PossibleRun(old(engine), events, store.room) && engine == Engines.Run(old(engine), events, store.room)
    {
      hide Application.Valid, Step;
      InStore();
      AllPossible(engine, events, store.room);
      assert events[0..] == events;
      for i := 0 to |events|
        invariant Valid() && fresh(bank.Repr - old(bank.Repr)) && fresh(store.Repr - old(store.Repr))
        invariant Extends(old(bank.notifier.state), bank.notifier.state)
        invariant PossibleRun(engine, events[i..], store.room)
        invariant Engines.Run(engine, events[i..], store.room) == Engines.Run(old(engine), events, store.room)
      {
        assert events[i..][0] == events[i] && events[i..][1..] == events[i + 1..];
        assert events[i] in events;
        Handle(events[i], times[i]);
      }
    }

    // ---- what holds between events ----

    /** Every requirement belongs to a set alert, stands in its condition once
        and in the list of its variable once, and nothing else does. */
    lemma Ownership()
      requires Valid()
      ensures store.requirementPool.live == store.live
      ensures forall r | r in store.live :: r.alertId < |engine.alerts| && engine.alerts[r.alertId].state.isSet
      ensures forall i | 0 <= i < |engine.alerts| ::
                && store.conditions[i].Valid() && store.conditions[i].NoRepeats()
                && store.conditions[i].Requirements() == OfAlert(store.live, i)
      ensures forall v: Variable ::
                && Distinct(store.List(v).Contents())
                && ToSet(store.List(v).Contents()) == OfVariable(store.live, v)
    {
      hide RaiserBank.Valid, AlertCondition.Valid, AlertCondition.NoRepeats, LinkedList.Valid, Size;
      forall r | r in store.live ensures r.alertId < |engine.alerts| && engine.alerts[r.alertId].state.isSet {
        HasCondition(r);
        FitsAll(engine, engine.values);
        assert Fits(engine.alerts[r.alertId], r.alertId);
      }
      forall i | 0 <= i < |engine.alerts|
        ensures store.conditions[i].Valid() && store.conditions[i].NoRepeats()
        ensures store.conditions[i].Requirements() == OfAlert(store.live, i)
      {
        assert ConditionOk(store.conditions[i], OfAlert(store.live, i), store.groups[i]);
      }
      forall v: Variable
        ensures Distinct(store.List(v).Contents()) && ToSet(store.List(v).Contents()) == OfVariable(store.live, v)
      {
        assert ListOk(store.List(v), OfVariable(store.live, v));
      }
    }

    /** Despite short circuits and evaluations out of order, a requirement that
        was ever evaluated remembers its comparison on the current value. */
    lemma CachesAreCurrent(r: VariableRequirement)
      requires Valid() && r in store.live && r.CacheOf().evaluated
      ensures r.comparison.variable in engine.values
      ensures var x := engine.values[r.comparison.variable];
              r.CacheOf().previous <==>
                if r.comparison.op.Geq? then x >= r.comparison.bound else x <= r.comparison.bound
    {
      hide Application.Linked, Invariant;
    }

    /** The node pool holds the entries of the LED list and one node for every
        requirement, and no pool is ever overdrawn. */
    lemma Conservation()
      requires Valid()
      ensures |store.nodePool.live| == |bank.notifier.manager.list.nodes| + |store.live| <= store.nodePool.capacity
      ensures |bank.notifier.manager.list.nodes| <= store.numAlerts
      ensures |store.live| <= store.requirementPool.capacity
    {
      hide RequirementStore.Valid, Same, Invariant, CachesSound;
      var leds := bank.notifier.manager.list;
      store.LiveBound();
      bank.LedNodesBound();
      ToSetSize(leds.nodes);
      assert leds.NodeSet() == (set o: object | o in leds.nodes) == ToSet(leds.nodes);
    }

    /** The messages and LED commands of all alerts are those that the notifiers
        have seen; the LED manager's entries and cursor, and the transceiver's
        slots, are what these make of them; every message is in transmission or
        was reported on exactly once. */
    lemma Observed()
      requires Valid()
      ensures Invariant(engine) && Agree(engine.alerts, bank.notifier.state)
      ensures bank.notifier.state.display == Shown(bank.notifier.manager.Ring())
      ensures var r := bank.notifier.state.display;
              bank.notifier.manager.shown == if r.entries == [] then None else Some(r.entries[r.cursor])
      ensures bank.notifier.state.traffic == bank.notifier.transceiver.traffic
      ensures bank.notifier.transceiver.slots[..] == bank.notifier.state.traffic.slots
      ensures MessageSlots.Tracked(bank.notifier.transceiver.traffic)
    {
      hide RequirementStore.Valid, Invariant, CachesSound, LedManager.Valid, Wanted, LitBy, SentBy;
      hide MessageSlots.Tracked;
      LedShows(0);
    }

    /** The LED shows the entry the cursor is on; and when an expiry counts. */
    lemma LedShows(now: nat)
      requires Valid()
      ensures var r, manager := bank.notifier.state.display, bank.notifier.manager;
              && r.Valid() && manager.shown == (if r.entries == [] then None else Some(r.entries[r.cursor]))
              && (manager.Ticks(now) <==>
                    |r.entries| >= 2
                    && (now - manager.timerStart - manager.ignoreMs) % TWO_TO_THE_32 < TWO_TO_THE_31)
    {
      hide RequirementStore.Valid, Invariant, CachesSound, Same, AlertNotifier.Valid, NotifierState.Valid;
      bank.notifier.LedShows(now);
    }

    /** The LED list shows exactly the alerts that are raised and have an LED
        notification. */
    lemma LedAccounting()
      requires Valid()
      ensures multiset(Leds(bank.notifier.manager.list.Contents())) == Wanted(OnDisplay(engine.alerts))
      ensures forall led :: multiset(Leds(bank.notifier.manager.list.Contents()))[led] ==
                |set i | 0 <= i < |engine.alerts| && engine.alerts[i].state.raised
                         && engine.alerts[i].setting.led == Some(led)|
    {
      hide RequirementStore.Valid, Invariant, CachesSound, LedManager.Valid, MsgTransceiver.Valid, Wanted;
      forall led
        ensures Wanted(OnDisplay(engine.alerts))[led] ==
                |set i | 0 <= i < |engine.alerts| && engine.alerts[i].state.raised
                         && engine.alerts[i].setting.led == Some(led)|
      {
        OnDisplayCounts(engine.alerts, led);
      }
      assert OnDisplay(engine.alerts) == ShowingAll(bank.states, bank.notifier.state.settings);
    }
  }

  lemma OnDisplayCounts(alerts: seq<AlertState>, led: Led)
    ensures Wanted(OnDisplay(alerts))[led] ==
            |set i | 0 <= i < |alerts| && alerts[i].state.raised && alerts[i].setting.led == Some(led)|
  {
    hide Wanted;
    WantedCounts(OnDisplay(alerts), led);
    assert (set i | 0 <= i < |alerts| && OnDisplay(alerts)[i] == Some(led)) ==
           (set i | 0 <= i < |alerts| && alerts[i].state.raised && alerts[i].setting.led == Some(led));
  }

  // ---- what the network and the LED get to see ----

  /** Of every alert the messages and the LED commands are those of `s`. */
  ghost predicate Agree(alerts: seq<AlertState>, s: NotifierState) {
    && |alerts| == |s.settings| && s.Valid()
    && forall i | 0 <= i < |alerts| ::
         && alerts[i].sent == SentBy(s.traffic.sent, i) && alerts[i].lit == LitBy(s.commands, i)
         && alerts[i].setting == s.settings[i]
  }

  lemma AgreeIsLawful(e: Engine, s: NotifierState)
    requires Invariant(e) && Agree(e.alerts, s)
    ensures Lawful(s.commands, |e.alerts|) && ApplyAll(DARK, OpsOf(s.commands)) == s.display
  {
    hide AllEnabled, ApplyAll, LitBy, SentBy, Paired;
    forall i | 0 <= i < |e.alerts| ensures Paired(LitBy(s.commands, i)) {
      assert AlertOk(e.alerts[i], i, e.values);
    }
  }

  /** The commands given from `s` to `s'`. */
  function Since(s: NotifierState, s': NotifierState): seq<LedCommand>
    requires Extends(s, s')
  {
    s'.commands[|s.commands|..]
  }

  /** The display is always what the commands make of it. */
  lemma DisplayFollows(s: NotifierState, s': NotifierState)
    requires s.Valid() && s'.Valid() && Extends(s, s')
    ensures s.display.Valid() && AllEnabled(s.display, OpsOf(Since(s, s')))
    ensures ApplyAll(s.display, OpsOf(Since(s, s'))) == s'.display
  {
    assert OpsOf(s'.commands) == OpsOf(s.commands) + OpsOf(Since(s, s'));
    ApplyConcat(DARK, OpsOf(s.commands), OpsOf(Since(s, s')));
  }

  /** An alert that is not notified during a run gives no LED command. */
  lemma QuietInRun(e: Engine, events: seq<Engines.Event>, room: nat, s: NotifierState, s': NotifierState, i: nat)
    requires Invariant(e) && PossibleRun(e, events, room) && Extends(s, s') && Agree(e.alerts, s)
    requires Agree(Engines.Run(e, events, room).alerts, s')
    requires i < |e.alerts| == |Engines.Run(e, events, room).alerts|
    requires Notifications(Engines.Run(e, events, room).alerts[i].log) == Notifications(e.alerts[i].log)
    ensures LitBy(Since(s, s'), i) == []
  {
    hide NotifierState.Valid, Notifications, Invariant;
    RunGrows(e, events, i, room);
    LitByConcat(s.commands, Since(s, s'), i);
    assert s'.commands == s.commands + Since(s, s');
  }

  /** Fairness for the alerts of the application: the LED of an alert that is
      raised and stays raised throughout a run is displayed as soon as the ticks
      make up for its distance and the delays, ... */
  lemma RaisedIsDisplayed(e: Engine, events: seq<Engines.Event>, room: nat, s: NotifierState, s': NotifierState,
                          i: nat, led: Led)
    requires Invariant(e) && PossibleRun(e, events, room) && Extends(s, s') && Agree(e.alerts, s)
    requires Agree(Engines.Run(e, events, room).alerts, s') && Invariant(Engines.Run(e, events, room))
    requires i < |e.alerts| == |Engines.Run(e, events, room).alerts|
    requires Showing(e.alerts[i].state, e.alerts[i].setting) == Some(led)
    requires Notifications(Engines.Run(e, events, room).alerts[i].log) == Notifications(e.alerts[i].log)
    ensures var ops := OpsOf(Since(s, s'));
            && s.display.Valid() && Survives(s.display, ops, led)
            && (Ticks(ops) >= Distance(s.display, led) + Delay(s.display, ops, led) ==>
                  EverDisplayed(s.display, ops, led))
            && (Delay(s.display, ops, led) == AddsBefore(s.display, ops, led) <==> NoneSetsBack(s.display, ops, led))
            && (Remove(led) !in ops ==> NoneSetsBack(s.display, ops, led))
  {
    hide Survives, EverDisplayed, Delay, Engines.Run, Invariant, Lawful, ApplyAll, LitBy;
    var e' := Engines.Run(e, events, room);
    QuietInRun(e, events, room, s, s', i);
    AgreeIsLawful(e, s);
    AgreeIsLawful(e', s');
    ShowsWhatIsOpen(e, s, i);
    assert s'.commands == s.commands + Since(s, s');
    OpenIsDisplayed(s.commands, Since(s, s'), |e.alerts|, i, led);
  }

  lemma ShowsWhatIsOpen(e: Engine, s: NotifierState, i: nat)
    requires Invariant(e) && Agree(e.alerts, s) && i < |e.alerts|
    ensures OpenLed(LitBy(s.commands, i)) == Showing(e.alerts[i].state, e.alerts[i].setting)
  {
    assert AlertOk(e.alerts[i], i, e.values);
  }

  /** ... and only the silencing of an alert with the same LED delays it by more
      than the additions. */
  lemma RemovalSilences(e: Engine, e': Engine, s: NotifierState, s': NotifierState, led: Led)
    requires Extends(s, s') && Agree(e.alerts, s) && Agree(e'.alerts, s') && |e.alerts| == |e'.alerts|
    requires Remove(led) in OpsOf(Since(s, s'))
    ensures exists j :: 0 <= j < |e.alerts| &&
              e.alerts[j].lit <= e'.alerts[j].lit && Remove(led) in e'.alerts[j].lit[|e.alerts[j].lit|..]
  {
    hide AllEnabled, ApplyAll, LitBy, SentBy;
    var more := Since(s, s');
    assert s'.commands == s.commands + more;
    assert forall c | c in more :: c in s'.commands;
    SomeonesCommand(more, |e.alerts|, Remove(led));
    var j :| 0 <= j < |e.alerts| && Remove(led) in LitBy(more, j);
    LitByConcat(s.commands, more, j);
    assert e'.alerts[j].lit[|e.alerts[j].lit|..] == LitBy(more, j);
  }

  function OnDisplay(alerts: seq<AlertState>): (r: seq<Option<Led>>)
    ensures |r| == |alerts| && forall i | 0 <= i < |r| :: r[i] == Showing(alerts[i].state, alerts[i].setting)
  {
    seq(|alerts|, i requires 0 <= i < |alerts| => Showing(alerts[i].state, alerts[i].setting))
  }

  lemma MoreCaches(live: set<VariableRequirement>, more: set<VariableRequirement>, values: Readings)
    requires CachesSound(live, values) && live <= more
    requires forall r | r in more && r !in live :: r.CacheOf() == UNEVALUATED
    ensures CachesSound(more, values)
  {
  }

  lemma NoCacheFilled(live: set<VariableRequirement>, before: Readings, values: Readings)
    requires CachesSound(live, before) && before.Keys <= values.Keys && !Domain.Ready(values)
    ensures CachesSound(live, values)
  {
  }

  lemma NothingSwept(e: Engine, caches: map<VariableRequirement, Cache>)
    ensures FedBy([], caches, e.values) == [] && forall values :: NoticesFor(e.alerts, values, []) == []
  {
  }

  /** A sample that repeats the value makes no difference. */
  lemma NothingNew(e: Engine)
    requires Invariant(e) && Domain.Ready(e.values)
    ensures EvaluatedAll(e.alerts, e.values) == e.alerts
  {
    forall i | 0 <= i < |e.alerts| ensures e.alerts[i].Evaluated(e.values) == e.alerts[i] {
      assert AlertOk(e.alerts[i], i, e.values);
      SameVerdict(e.alerts[i], i, e.values, e.values);
    }
  }

  lemma FitsAll(e: Engine, before: Readings)
    requires Invariant(e.(values := before))
    ensures AllFit(e)
  {
  }

  /** A sample of `v` leaves the comparisons of other variables as they are. */
  lemma OthersHold(live: set<VariableRequirement>, v: Variable, before: Readings, values: Readings)
    requires v in values && values == before[v := values[v]]
    ensures forall r | r in live ::
              r in OfVariable(live, v) || Holds(r.comparison, before) == Holds(r.comparison, values)
  {
  }

  lemma AlertIs(live: set<VariableRequirement>, id: nat)
    ensures forall r | r in OfAlert(live, id) :: r in live && r.alertId == id
  {
  }

  lemma VariablesCover(live: set<VariableRequirement>)
    ensures live == {} + OfVariable(live, Temperature) + OfVariable(live, Pressure)
                    + OfVariable(live, Humidity) + OfVariable(live, LightIntensity)
  {
  }

  /** Every filled cache held the result on the values `before`. */
  ghost predicate CachesWere(caches: map<VariableRequirement, Cache>, before: Readings) {
    forall r | r in caches ::
      caches[r] == UNEVALUATED || (Domain.Ready(before) && caches[r] == Cache(true, Holds(r.comparison, before)))
  }

  lemma SameHolds(formula: Cnf, before: Readings, values: Readings)
    requires forall g, c | g in formula && c in g :: Holds(c, before) == Holds(c, values)
    ensures EvalCnf(formula, before) == EvalCnf(formula, values)
  {
  }
}
