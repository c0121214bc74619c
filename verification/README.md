# Alert engine of the environmental alert system

The device samples temperature, pressure, humidity and light intensity, and
raises alerts. An alert has a condition, an AND of ORs of comparisons of the
variables with constants; a warmup and a cooldown period that debounce it; and
notifications: a status message to the network, an entry in the rotation of the
LED, or both. Alerts are added and removed by messages from the network.

This project models the application that does this and proves that it is right,
from the received bytes to the LED and the messages sent.

## What is proved

**Incremental evaluation is evaluation from scratch.** The application caches
the last result of every comparison, evaluates on a sample only the comparisons
of that variable, evaluates a condition only if one of its comparisons changed,
and changes the same caches out of order, with short circuits, while it evaluates
a condition. `Engines` is the application without all that: on every sample every
alert is evaluated anew. `Applications.Application` is the application as it is,
with its lists, arrays, pools and timer flags on the heap. For every event,
`Application.Handle` leaves it in the state and with the outputs that `Engines.Step`
gives: per alert the same notifications, the same starts and stops of timers, the
same commands for the LED and the same status messages handed to the transceiver,
in the same order. Those for which no slot is free are among them; they are
reported back at once as failed. Between alerts the order is that in which the sweep
through the lists first meets a comparison of each whose result is not the one in its
cache, so that the rotation and the slots after an event follow from those before, the
event, the lists and the caches. `Application.Run` says so for any sequence of
events. A raiser that is told its last result again does nothing, which is why it
cannot tell how often its condition was evaluated.

**No assert fires.** An assert of the source is a precondition here. `Application.Run`
has none about the events, apart from indices that only the application itself
hands out; so in no run is a value read before it is set, a result reported to an
alert that is not set, an empty condition evaluated, an array or a pool
overdrawn, an LED entry not found or a timer started with period 0.

**What follows for all runs** is proved about `Engines`: the last result told to a set
alert is that of its condition on the current values; notifications of an alert
are raised, silenced, raised, ...; its timers are used properly; and an alert
built from a message holds exactly if every nonempty group of the message has a
comparison that holds.

**In bytes and numbers.** `Interfaces` says what the application does without naming
anything it is made of: which bytes set up an alert whose id is free, with the limits of
the validator in numbers, and which remove one; what the numbers of a sample make of its
condition; and that from the accepted bytes on, short of its removal, an alert changes its
state with exactly the status message and the LED of the colour and pattern that the bytes
ask for (`Interfaces.FromBytesToLed`). `Wire` states the layout byte by byte, and
`MessageSlots.ReportsAreTrue` that a sender is told the network's own result, or false
because all slots were occupied.

**Debouncing from end to end.** `TimedEngines` is the application in real time, with
the timers of one alert as the platform has them and everything else at any moment.
Unless a stale expiry is handled, an alert is raised only after its condition was true
on the current values throughout its warmup period, and silenced while it stays set only
after it was false throughout its cooldown period (`TimedEngines.DebouncedEndToEnd`).
Conversely, in any run, stale expiries included: when the condition was true throughout
the warmup period, or false throughout the cooldown period, and no timer is overdue nor a
latest expiry waiting, the alert is raised, or silenced (`TimedEngines.LastingTakesEffect`).

**What the LED and the network get.** Every event changes the rotation of the LED by
commands that are all possible when they are given, and each alert's commands are
those its notifications demand (`Applications.DisplayFollows`, `Engines.ToldLights`). So the LED
list holds exactly what the alerts have open (`Lights.OpenIsListed`), and the LED of
an alert that stays raised during a run is displayed as soon as the accepted ticks make
up for its distance and for the delays (`Applications.RaisedIsDisplayed`). The delays are
exact: an addition costs a step if it comes before the LED, and the removal of an equal
LED for another alert (`Applications.RemovalSilences`) as many as there are other entries
up to the next one, if it takes the nearest.
Messages are in transmission or were reported on exactly once, and what the heap holds
is what these values say (`Application.Observed`).

**The parts.** The linked list, which links and unlinks nodes in place, refines
functions on sequences. The LED manager, whose live iterator points into the list
it changes, refines a cyclic sequence with a cursor (`LedRing`), for which fairness
under additions and removals, also of equal entries, is proved by a potential. The
raiser, with two timers and their flags, refines a debouncer without flags (`Raising`), also when expiries
arrive late. The byte parser inverts a serializer and accepts nothing else. The
32-bit clock filter is compared with unbounded real time. Message slots match
messages in transmission one to one.

**What is not as documented**, or holds under a condition only:

- A timer that runs out queues its expiry
  (src/interfaces/implementations/eas_timer/zephyr/eas_timer.c:31-38), and stopping
  it does not take the expiry back. An expiry of an earlier start that is handled
  after a later start raises the alert early and leaves the timer running
  (`TimedRaising.StaleExpiryRaisesEarly`). The platform's timers stay in step with the
  raiser, none running without a change that is due, if and only if no expiry is handled
  while a change is due for which the timer still runs
  (`TimedRaising.TimersInStepExactly`); and unsetting an alert stops all its timers if
  and only if none runs without a change that is due (`TimedRaising.UnsetStopsExactly`).
  A change of state by an expiry is timely if and only if the period has passed since
  the latest start (`TimedRaising.ExpiryTimelyExactly`), which is so in runs without
  stale expiries.
- The clock filter of the LED manager is right if and only if the expiry is early
  or its age past the period lies in the lower half of a turn of the clock
  (`EasTime.FilterCorrectExactly`). A timer that is not restarted for 2^31 ms has its
  genuine expiries dropped for the next 2^31 ms (`EasTime.FilterDropsGenuineExpiries`).
- Deinitializing the transceiver while a message is in transmission lets the next
  message's sender get the old message's result
  (`MessageSlots.DeinitWhileOutstanding`); it is harmless if and only if none is
  (`MessageSlots.DeinitTrackedExactly`).
- An empty group of ORed comparisons is accepted and vanishes, although an empty OR
  is false. `Validators.EmptyGroupVanishes` has a message and readings for which this
  matters; the built condition agrees with the literal AND over all groups if and only if
  no group is empty or one that is not empty is false (`Validators.LiteralExactly`).
- An alert that stays raised may have to wait longer for its LED when another alert with
  the same LED is silenced (`Lights.RemovalOfAnEqualDelays` has the commands). Additions
  that come before the LED are the only delays of a run if and only if no removal of an
  equal entry takes the one that is displayed next with an entry of another LED after it
  (`LedRing.DelayIsAddsExactly`); and after a removal the ticks that were enough before
  still are, whatever follows but further removals of equal entries, if and only if it is
  none of these (`LedRing.RemovalDelaysExactly`).
- The header comments on "is changed" (src/app/value_holder.h:55-57 and
  src/app/variable_requirement.h:163-165) say the opposite of the code, which is
  followed here.

## Reading order

`Domain`, `Engines`, `Interfaces`, `TimedEngines` and the last part of `Applications` state
the main results. Below them, from the bottom: `Sequences`, `Pools`, `LinkedLists`; `EasTime`, `LedRing`,
`LedManagers`; `MessageSlots`, `Transceivers`; `Notifiers`; `Raising`, `TimedRaising`,
`AlertRaisers`, `RaiserBanks`, `Lights`; `Requirements`, `Conditions`; `Wire`, `MessageParsers`,
`Validators`; `RequirementStores`. `dafny verify dfyconfig.toml` checks everything.

Handlers run one at a time, as src/app/glue/central_event_queue.h:19-27 requires.
Time is a parameter `now`. `ghost others` are the nodes of other lists in a pool that
several lists share. `hide` statements keep definitions away from the verifier where
they are not needed; they have no other meaning.

## Model

| member | source | states |
|---|---|---|
| Applications.Application.Handle | src/app/glue/central_event_queue.h:19-27 | from any state between events, any one event keeps all invariants and leaves state and outputs as evaluating every alert from scratch would; nothing sent or commanded before is undone, only an accepted LED expiry advances the display, by one, and only a transmit report completes a message; any other event tells the notifiers exactly its notices, those of a sample in the order of the sweep |
| Applications.Application.Run | src/app/glue/event_handlers/new_sample_handler.c:143-173 | the same for any sequence of samples, byte strings, stale or fresh expiries and transmit reports, with no precondition on them: no assert fires in any run; messages, reports and LED commands only add to those before |
| Applications.Application.Observed | src/app/alert_notifier.c:5-9 | between events every alert's messages and LED commands are those the notifiers have seen; the manager's entries and cursor and the transceiver's slots are what these make of them, the LED shows the entry at the cursor, and every message is in transmission or reported exactly once |
| Applications.DisplayFollows | src/app/led_manager.c:335-412 | between any two states of a run the rotation changes by the commands given, all of them possible when given |
| Applications.RaisedIsDisplayed | src/app/led_manager.c:145-174 | in any run of the application the LED of an alert that stays raised is displayed once the ticks make up for its distance and the delays, which are the additions before it if and only if no removal sets it back |
| Applications.RemovalSilences | src/app/led_notification_executor.c:9-11 | an LED is removed only for an alert that had it open and was notified |
| Interfaces.FromBytesToLed | src/app/glue/alert_adder.c:89-173 | after an accepted message, whatever happens short of removal, every change of state of the alert sends its status message and adds or removes its LED exactly as the bytes ask, and the last result is the message's condition on the numbers sampled |
| Interfaces.SampleDecides | src/app/glue/event_handlers/new_sample_handler.c:143-173 | a sample replaces one value; once all are known the last result is whether every group has a value on the right side of its bound, and with period 0 the alert follows at once |
| Interfaces.SetsUpExactly | src/app/glue/alert_validator.c:144-198 | the bytes that set up an alert with a free id, if and only if, with all limits in numbers |
| Interfaces.RemovesExactly | src/app/middleware/msg_transceiver.c:573-592 | an alert that is set is unset by its two bytes and by no others, and no others touch it |
| Interfaces.NotificationsAsAsked | src/app/glue/alert_adder.c:35-60 | connectivity, colour, pattern and periods of an alert are those of the bytes |
| Interfaces.EventTells | src/app/alert_notifier.c:5-9 | an event tells of a set alert exactly a change of its state, by message and LED as enabled, and leaves its settings |
| Interfaces.StaysAsSetUp | src/app/glue/alert_remover.c:20-58 | until its removal an alert keeps its settings, periods and condition |
| TimedEngines.DebouncedEndToEnd | src/app/alert_raiser.h:22-40 | in real time, a fresh event of any run only raises an alert whose condition was true on the current values throughout the warmup period, and only silences one that stays set if it was false throughout the cooldown period |
| TimedEngines.LastingTakesEffect | src/app/alert_raiser.h:22-40 | in any run, when the verdict on a set alert was the same throughout the period toward it and platform and queue are not behind, the alert is in that state |
| TimedEngines.LastedIsSaid | src/app/glue/event_handlers/new_sample_handler.c:143-173 | a result that lasted in the raiser's history is one the condition had at every moment of that time |
| TimedEngines.StepKeeps | src/app/alert_raiser.c:155-193 | the raiser in real time and the alert of the application stay the same debouncer, and what it remembers is what it was told at each moment |
| Applications.Application.NewSample | src/app/glue/event_handlers/new_sample_handler.c:143-173 | the change-driven handler has the effect of evaluating every set alert on the new values, for every alert's state, notifications, timer commands and messages |
| Applications.Application.HandleValueChange | src/app/glue/event_handlers/new_sample_handler.c:158-172 | after the sweeps, of one list or at first of all four, every alert is as if evaluated from scratch and no cache is stale |
| Applications.Application.UpdateAlerts | src/app/glue/event_handlers/new_sample_handler.c:158-172 | whether all lists, one list or none is swept, every alert ends up as if evaluated on the new values |
| Applications.Application.Sweep | src/app/utils/linked_list.c:93-101 | walks a list while the callback changes caches and raisers; every requirement of the variable ends up evaluated, and alerts are told in the order of the list |
| Applications.Application.SweepAll | src/app/glue/event_handlers/new_sample_handler.c:163-169 | the first complete sample visits every requirement there is |
| Applications.Application.EvaluateVariableRequirement | src/app/glue/event_handlers/new_sample_handler.c:33-45 | one visit keeps the sweep's invariant: alerts whose condition was evaluated are as if evaluated from scratch, all others and their caches are untouched |
| Applications.Application.NotFedIsSame | src/app/glue/event_handlers/new_sample_handler.c:33-45 | an alert of which no comparison changed its result needs no evaluation: telling it the verdict would do nothing |
| Applications.Application.SweptIsEvaluated | src/app/glue/event_handlers/new_sample_handler.c:143-173 | when all stale comparisons have been visited, the alerts equal those evaluated from scratch and the caches are sound |
| Applications.Application.TakeSample | src/app/glue/event_handlers/new_sample_handler.c:153-156 | the sample is stored; the handler learns whether all variables had been and are now sampled, and whether the value changed |
| Applications.FedByMeans | src/app/glue/event_handlers/new_sample_handler.c:33-45 | a sweep evaluates exactly the alerts with a comparison whose result is not the one in its cache, in the order of their first ones |
| Applications.NothingNew | src/app/glue/event_handlers/new_sample_handler.c:170-172 | a sample that repeats the value makes no difference to any alert |
| Applications.Application.Receive | src/app/middleware/msg_transceiver.c:573-592 | dispatch on the message id; a remove message has exactly one payload byte, anything malformed is ignored |
| Applications.Application.AddAlert | src/app/glue/alert_adder.c:89-173 | an invalid alert or an occupied id changes nothing; else the alert is set up, and evaluated at once if all variables are sampled |
| Applications.Application.RemoveAlert | src/app/glue/alert_remover.c:20-58 | an invalid or free id changes nothing; else the alert is silenced without a message, unset, and all its requirements are gone |
| Applications.Application.BuildCondition | src/app/glue/alert_adder.c:121-166 | the loop builds the stated condition, its new requirements are unevaluated and the pools have room |
| Applications.Application.ClearCondition | src/app/glue/alert_remover.c:45-57 | the requirements of the alert and no others are gone, from condition, lists and pools |
| Applications.Application.EvaluateAlert | src/app/glue/alert_adder.c:168-172 | the raiser is told the condition's value on the current values; caches it touched hold current results |
| Applications.Application.TimerExpired | src/app/alert_raiser.c:28-56 | an expiry, stale or not, has the debouncer's effect on its alert only |
| Applications.Application.LedTimerExpired | src/app/led_manager.c:159-174 | with two entries or more, an expiry in the half turn of the clock that begins when the duration minus the margin is over moves the display to the cyclic successor, any other does nothing; alerts are untouched |
| Applications.Application.Transmitted | src/app/middleware/msg_transceiver.c:48-63 | a report completes the message in its slot, or is ignored on a vacant slot |
| Applications.Application.constructor | src/port/nrf52840dk/include/config.h:39-73 | the initial state satisfies all invariants with the capacities of the configuration, and expiries of the LED timer count from the duration minus the margin on |
| Applications.Application.Ownership | src/app/glue/alert_adder.c:122-166 | between events every live requirement belongs to a set alert and stands once in its condition and once in the list of its variable, and nothing else does |
| Applications.Application.CachesAreCurrent | src/app/variable_requirement.c:37-57 | between events every requirement ever evaluated remembers whether the current value is at least, or at most, its bound, despite short circuits and evaluations out of order |
| Applications.Application.Conservation | src/port/nrf52840dk/include/config.h:71-73 | live nodes are the LED entries plus one per requirement, and stay within the pools |
| Applications.Application.LedAccounting | src/app/led_notification_executor.c:5-12 | the LED list has every LED as often as there are alerts that are raised and have it |
| Applications.Application.RoomToBuild | src/port/nrf52840dk/include/config.h:44-47 | an alert without requirements always finds room for a full condition in every pool |
| Engines.EveryReachableIsUpToDate | src/app/glue/event_handlers/new_sample_handler.c:143-173 | in every reachable state, once all variables are sampled, the last result told to each set alert is its condition's value on the current values; before that none was told |
| Engines.StepKeeps | src/app/glue/alert_adder.c:89-173 | every event keeps every alert valid, set exactly if it has a condition, and up to date |
| Engines.AlertsAlternate | src/app/alert_notifier.h:21-29 | in every run of the application each alert's notifications strictly alternate beginning with raised, and its timers are never started with period 0, given a period while on, started or stopped twice in a row |
| Engines.RunTells | src/app/alert_raisers.c:14-38 | in every run each alert's log is that of its own raiser on an accepted input sequence: no other alert interferes |
| Engines.ReceivedMeans | src/app/middleware/msg_transceiver.c:446-469 | the condition added for an accepted message holds exactly if every nonempty group has a comparison of which the current value is at least (operator 0) or at most (operator 1) the value sent |
| Engines.RemovalIsNotSent | src/app/glue/alert_remover.c:34-43 | removing a raised alert silences it without a status message |
| Engines.ToldLights | src/app/led_notifier.c:42-50 | whatever the input, an alert's LED commands stay paired and what they leave open is the LED of a raised alert |
| Engines.RunGrows | src/app/alert_notifier.c:5-9 | in any run an alert that is not notified gives no LED command |
| Engines.NoticesAre | src/app/alert_raiser.c:155-193 | an input is notified at most once, with the settings the alert has then, and not at all if the state stays |
| Engines.ToldAgain | src/app/alert_raiser.c:155-193 | telling a raiser its last result again changes nothing and emits nothing |
| Engines.SameVerdict | src/app/glue/event_handlers/new_sample_handler.c:38-44 | evaluating an up-to-date alert whose verdict is unchanged does nothing |
| RequirementStores.RequirementStore.LiveBound | src/port/nrf52840dk/include/config.h:44-47 | the requirements fit their pool and take one list node each |
| RequirementStores.RequirementStore.AddRequirement | src/app/glue/alert_adder.c:130-165 | one turn of the loop: a fresh, unevaluated requirement joins its condition and the list of its variable, all others stay |
| RequirementStores.RequirementStore.BuildCondition | src/app/glue/alert_adder.c:121-166 | the loop yields the groups the flags describe |
| RequirementStores.RequirementStore.RemoveAlert | src/app/glue/alert_remover.c:45-57 | exactly the alert's requirements leave the lists, are destroyed once each, and the nodes freed are those unlinked |
| RequirementStores.RequirementStore.RemoveFromLists | src/app/glue/alert_remover.c:45-49 | the four lists drop the alert's requirements and keep all others |
| RequirementStores.RequirementStore.ClearCondition | src/app/glue/alert_remover.c:51-57 | the alert's requirements are freed and its condition is empty |
| RequirementStores.RequirementStore.EvaluateRequirement | src/app/variable_requirement.c:37-66 | the cache becomes current, and a change is reported exactly if the cache changed |
| RequirementStores.RequirementStore.EvaluateCondition | src/app/alert_condition.c:142-169 | the result is the condition's value on the current values; caches of the alert keep their value or become current, others are untouched |
| RequirementStores.RequirementStore.ComparisonsLive | src/app/alert_condition.c:115-134 | the comparisons of a condition are those of its live requirements |
| RequirementStores.RequirementStore.TakeSample | src/app/alert_evaluation_readiness.c:42-45 | ready exactly when every variable has a value |
| RequirementStores.RequirementStore.constructor | src/app/alert_conditions.c:14-26 | no requirements, empty conditions, empty lists |
| RequirementStores.CreateConditions | src/app/alert_conditions.c:14-26 | distinct empty conditions with arrays of their own |
| RequirementStores.AddToList | src/app/variable_requirement_list.c:68-72 | the requirement comes first in the list, others follow once as before |
| RequirementStores.RemoveAllForAlert | src/app/variable_requirement_list.c:81-85 | exactly the requirements of the alert leave the list; the freed nodes are the unlinked ones |
| RequirementStores.AddToCondition | src/app/alert_condition.c:115-140 | the requirement joins the open group, which the flag ends |
| RequirementStores.RemoveAllKeeps | src/app/utils/linked_list.c:103-110 | an unlimited removal keeps exactly the elements that do not match |
| Conditions.AlertCondition.AddVariableRequirement | src/app/alert_condition.c:115-134 | the groups between the nulls gain the requirement in the open group; the array never overflows |
| Conditions.AlertCondition.InsertAndIfDue | src/app/alert_condition.c:123-130 | a pending AND becomes a null, but never the first item |
| Conditions.AlertCondition.StartNewOredRequirement | src/app/alert_condition.c:136-140 | a new group begins; doing it twice is doing it once, and the condition built so far means the same |
| Conditions.AlertCondition.EvaluateOredRequirement | src/app/alert_condition.c:77-101 | despite the short circuit the result is the OR of the whole group, and the end index is its end |
| Conditions.AlertCondition.Evaluate | src/app/alert_condition.c:142-169 | despite both short circuits the result is the AND over the groups between the nulls of their ORs |
| Conditions.AlertCondition.DestroyRequirements | src/app/alert_condition.c:171-182 | each requirement of the condition is freed exactly once |
| Conditions.AlertCondition.Reset | src/app/alert_condition.c:184-191 | an empty condition with one open group |
| Conditions.AlertCondition.AddRequirementToList | src/app/alert_condition.c:53-57 | the item is appended within the array |
| Conditions.AlertCondition.FormulaIsClosed | src/app/alert_condition.c:142-169 | what is evaluated is what was built, without a group begun at the end |
| Conditions.NextGroup | src/app/alert_condition.c:149-164 | one false group decides a condition, a true one leaves it to the others |
| Requirements.VariableRequirement.Evaluate | src/app/variable_requirement.c:37-57 | the result is the comparison on the current value, the cache holds it, and "changed" means the cache changed, first evaluation included |
| Requirements.VariableRequirement.EvaluateComparison | src/app/temperature_requirement.c:30-60 | whether the current value of its variable is at least, or at most, the bound |
| Domain.EvalInNumbers | src/app/alert_condition.h:13-28 | a condition holds exactly if in every group some sampled value is on the right side of its bound |
| Domain.HoldsFromBoundOn | src/app/temperature_requirement.c:46-48 | a comparison holds at its bound, fails one beyond, and keeps holding in its direction |
| Requirements.VariableRequirement.IsResultChanged | src/app/variable_requirement.c:59-66 | whether the last evaluation changed the result |
| Requirements.CurrentValues.Set | src/app/value_holder.c:36-50 | the value is stored; "changed" if it differs or is the first |
| Requirements.CurrentValues.Get | src/app/value_holder.c:52-58 | the stored value, which must exist |
| Requirements.CurrentValues.IsReady | src/app/alert_evaluation_readiness.c:18-45 | every variable was sampled |
| Raising.RepeatedResult | src/app/alert_raiser.c:155-193 | repeating the last result is a no-op |
| Raising.NotificationsAlternate | src/app/alert_raiser.c:28-56 | in any run notifications alternate and the last one is the state |
| Raising.NotificationsOfARaiser | src/app/alert_notifier.h:21-29 | from creation: raised, silenced, ..., balanced after every unset, stale expiries included |
| Raising.TimersFollow | src/app/alert_raiser.c:58-88 | in any run exactly the timer toward the last result is on while a change is due, and timers are used properly |
| Raising.StepNotifies | src/app/alert_raiser.c:155-193 | one input notifies once exactly if the state changes |
| TimedRaising.DebounceInFreshRuns | src/app/alert_raiser.h:22-40 | without stale expiries every raise follows the warmup period of uninterrupted true results, and every silence other than by unset the cooldown period of false ones |
| TimedRaising.ChangeIsTimely | src/app/alert_raiser.h:22-40 | the same for one event in any reachable state |
| TimedRaising.ExpiryTimelyExactly | src/app/alert_raiser.c:28-56 | a change by an expiry is timely if and only if the period has passed since the latest start of the timer |
| TimedRaising.LastingTakesEffectInRuns | src/app/alert_raiser.h:22-40 | in any run, stale expiries included, a result that lasted for the period toward it has taken effect unless a timer is overdue or a latest expiry is waiting |
| TimedRaising.StepUnderWay | src/app/alert_raiser.c:58-72 | every event keeps this: a due change has its timer running or the expiry of its latest start queued |
| TimedRaising.OverdueHappens | src/interfaces/implementations/eas_timer/zephyr/eas_timer.c:31-38 | an overdue change is never stuck: its timer can run out, and the expiry then makes the change |
| TimedRaising.StepTimersExactly | src/app/alert_raiser.c:28-56 | an event keeps the platform timers in step with the raiser if and only if it is no expiry handled while a change is due for which the timer still runs |
| TimedRaising.TimersInStepExactly | src/app/alert_raiser.c:28-56 | in a run from the start the timers are in step throughout if and only if there is no such event |
| TimedRaising.UnsetStopsExactly | src/app/alert_raiser.c:127-146 | unsetting stops all platform timers if and only if none runs out of step |
| TimedRaising.FreshRunsStopTimers | src/app/alert_raiser.c:127-146 | runs without stale expiries meet this condition, so no timer runs on after an unset |
| TimedRaising.StaleExpiryRaisesEarly | src/interfaces/implementations/eas_timer/zephyr/eas_timer.c:31-38 | a concrete run in which a stale expiry overtakes a running timer: it raises the alert at once, and unsetting the alert leaves the timer running |
| AlertRaisers.AlertRaiser.SetAlert | src/app/alert_raiser.c:109-125 | the raiser follows the debouncer: state, periods given and log |
| AlertRaisers.AlertRaiser.UnsetAlert | src/app/alert_raiser.c:127-146 | stops the timer that is on and silences a raised alert |
| AlertRaisers.AlertRaiser.SetAlertConditionResult | src/app/alert_raiser.c:155-193 | follows the debouncer in all cases of state, result, period and timer flags |
| AlertRaisers.AlertRaiser.WarmupPeriodExpiredCb | src/app/alert_raiser.c:28-41 | raises only if the change is due |
| AlertRaisers.AlertRaiser.CooldownPeriodExpiredCb | src/app/alert_raiser.c:43-56 | silences only if the change is due |
| AlertRaisers.AlertRaiser.NotifyAlert | src/app/alert_raiser.c:36-39 | notifier, flag and log change together |
| AlertRaisers.AlertRaiser.StartWarmupTimer | src/app/alert_raiser.c:58-64 | never with period 0 |
| AlertRaisers.AlertRaiser.StartCooldownTimer | src/app/alert_raiser.c:66-72 | never with period 0 |
| RaiserBanks.RaiserBank.Feed | src/app/alert_raisers.c:28-38 | one alert's raiser steps, its notifications are sent if enabled, the rotation follows, and the other alerts are as before |
| Lights.OpenIsListed | src/app/led_notification_executor.c:5-12 | after any lawful sequence of commands the rotation holds exactly the LEDs added and not removed, per alert |
| Lights.RemovalOfAnEqualDelays | src/app/led_manager.c:220-231 | lawful commands of four alerts after which one that stays raised is not displayed although its distance and the additions are made up for |
| Lights.OpenIsDisplayed | src/app/led_manager.c:145-174 | the LED an alert has open stays in the rotation while the alert gives no command, and is displayed once the ticks make up for its distance and the delays, which are exact |
| RaiserBanks.RaiserBank.LedNodesBound | src/port/nrf52840dk/include/config.h:71-73 | the LED list never exceeds the number of alerts |
| RaiserBanks.RaiserBank.constructor | src/app/alert_raisers.c:14-26 | as many distinct unset raisers as alerts |
| RaiserBanks.RaiserBank.DisableLed | src/app/glue/alert_remover.c:43-43 | turning off the LED of an alert that is silenced leaves the LED list in accord |
| RaiserBanks.WantedAllowsFlip | src/app/led_notification_executor.c:5-12 | what an alert shows can be removed, and an alert that shows nothing can be added |
| RaiserBanks.AfterAccords | src/app/led_notifier.c:42-50 | when an alert changes its state and the LED list follows, the list is again the multiset over all raised alerts |
| RaiserBanks.HeardFollows | src/app/alert_raiser.c:36-39 | the notifiers hear of an alert exactly when it changes its state |
| RaiserBanks.WantedCounts | src/app/led_notifier.c:42-50 | an LED is wanted as often as there are alerts that show it |
| RaiserBanks.WantedUpdate | src/app/led_notifier.c:26-50 | changing one alert's display changes the multiset by that one only |
| Notifiers.AlertNotifier.Notify | src/app/alert_notifier.c:5-9 | the message is sent if enabled, and the rotation gains the alert's LED at its end or loses the first equal one if enabled |
| Notifiers.AfterValid | src/app/alert_notifier.c:5-9 | a notification keeps the rotation what the commands make of it, and every message tracked |
| Notifiers.FollowsNotified | src/app/alert_notifier.c:5-9 | telling notices one after the other forgets nothing and never advances the display |
| Notifiers.CompletesReports | src/app/middleware/msg_transceiver.c:48-63 | a report on an occupied slot calls the sender of its message once, with the network's result, and vacates it; on a vacant slot nothing is called |
| Notifiers.HeardProjects | src/app/connectivity_notifier.c:31-38 | a notification adds to the messages and LED commands of its own alert, as its settings say, and to no other's |
| Notifiers.AlertNotifier.NotifyConnectivity | src/app/connectivity_notifier.c:31-38 | one status message of this alert if enabled, else none |
| Notifiers.AlertNotifier.NotifyLed | src/app/led_notifier.c:42-50 | the list follows only an enabled alert |
| Notifiers.AlertNotifier.AddLed | src/app/led_notification_executor.c:5-8 | one more entry, at the end of the rotation; the node pool never runs out |
| Notifiers.AlertNotifier.RemoveLed | src/app/led_notification_executor.c:9-11 | the first entry that shows the LED goes; the removal always succeeds |
| Notifiers.AlertNotifier.EnableNotifications | src/app/led_notifier.c:26-33 | the settings of the alert and no other |
| Notifiers.AlertNotifier.DisableLed | src/app/led_notifier.c:35-40 | the LED is off for the alert, connectivity as before |
| Notifiers.AlertNotifier.DisableConnectivity | src/app/connectivity_notifier.c:24-29 | messages are off for the alert, LED as before |
| LedRing.Fairness | src/app/led_manager.c:145-174 | an LED of which some entry is there throughout is displayed once the accepted ticks reach the distance of its nearest entry plus the delays, as the following rows have them |
| LedRing.DelayIsAddsExactly | src/app/led_manager.c:367-412 | in any run the additions before it are the only delays if and only if no removal takes the nearest equal entry with another LED after it |
| LedRing.DistanceIsExact | src/app/led_manager.c:145-174 | the distance is the least number of ticks that is enough whatever follows, apart from removals of equal entries |
| LedRing.RemovalDelaysExactly | src/app/led_manager.c:220-231 | after the removal of an equal entry what was enough before still is, if and only if it did not take the nearest one with another LED after it |
| LedRing.RemoveEqualDistance | src/app/led_manager.c:300-317 | such a removal increases the distance by the other entries up to the next equal one if it takes the nearest, and else leaves it |
| LedRing.FairnessWhileKept | src/app/led_manager.c:145-174 | while no equal entry is removed, the distance and the additions are all there is to wait for |
| LedRing.TickDistance | src/app/led_manager.c:145-149 | a tick reduces the distance to the nearest equal entry by one |
| LedRing.AddDistance | src/app/led_manager.c:335-365 | an addition increases it by one if it comes before the nearest entry, and else not |
| LedRing.RemoveDistance | src/app/led_manager.c:367-412 | another entry's removal decreases it by one if that came before, and else leaves it |
| LedManagers.LedManager.AddNotification | src/app/led_manager.c:335-365 | appends at the end of the cycle without moving the display; the timer restarts only at the second entry; the iterator is rebuilt |
| LedManagers.LedManager.RemoveNotification | src/app/led_manager.c:367-412 | the list is left as by the removal with limit 1; false if there is no match; else the first match by colour and pattern goes, the display moves to the cyclic successor only if its entry went, and only then the timer restarts |
| LedManagers.LedManager.NotificationTimerCb | src/app/led_manager.c:159-174 | an accepted expiry advances the display modulo the length, any other does nothing; which ones are accepted, in milliseconds |
| LedManagers.LedManager.ShownIs | src/app/led_manager.c:125-139 | the LED last set is that of the displayed entry, and is off without one |
| LedManagers.LedManager.AdvanceIterator | src/app/led_manager.c:79-89 | yields the next element, wrapping around |
| LedManagers.LedManager.ResetIteratorAndIterateUntil | src/app/led_manager.c:102-115 | leaves the iterator on the link after the given element, null at the end |
| LedManagers.LedManager.FindNextNotificationAfterRemovedAndFree | src/app/led_manager.c:262-284 | run while the list is intact, finds the cyclic successor of the element about to go |
| LedManagers.LedManager.UpdateDisplayAfterAdd | src/app/led_manager.c:344-364 | display, timer and iterator fit the longer list |
| LedManagers.LedManager.UpdateDisplayAfterRemove | src/app/led_manager.c:376-411 | display, timer and iterator fit the shorter list |
| LedManagers.LedManager.RemoveLocated | src/app/led_manager.c:300-317 | callback, unlinking and freeing take out exactly one entry |
| LedManagers.LedManager.Locate | src/app/led_manager.c:220-231 | the first entry with the colour and pattern |
| LedManagers.LedManager.StartNotificationTimer | src/app/led_manager.c:320-326 | the threshold is the reading of the start plus duration minus margin, modulo 2^32 |
| LedManagers.DisplayedAfterRemoval | src/app/led_manager.c:376-411 | the removal's cursor is on the displayed entry, or on its successor if that went |
| EasTime.FilterCorrectExactly | src/app/utils/eas_time.c:13-17 | the filter tells an elapsed period if and only if the expiry is early or its age past the period is in the lower half of a turn |
| EasTime.FilterCorrectInWindow | src/app/led_manager.c:159-174 | it is right for less than 2^31 ms after the period |
| EasTime.FilterDropsGenuineExpiries | src/app/led_manager.c:320-326 | after that genuine expiries are dropped for 2^31 ms |
| EasTime.AcceptedIsResidue | src/app/utils/eas_time.c:8-17 | only the real elapsed time modulo 2^32 counts, at any absolute time |
| LinkedLists.LinkedList.RemoveOnConditionWithLimit | src/app/utils/linked_list.c:112-141 | exactly the first min(limit, matches) matching elements go, survivors keep their order, freed nodes are the unlinked ones |
| LinkedLists.FirstMatchGoes | src/app/utils/linked_list.c:112-141 | unlinking the node at which the walk stops is the removal with limit 1 |
| LinkedLists.LinkedList.Unlink | src/app/utils/linked_list.c:128-132 | the node leaves a list that was intact and stays intact |
| LinkedLists.LinkedList.FirstMatch | src/app/utils/linked_list.c:118-127 | the walk stops at the first match with the whole list still linked |
| LinkedLists.LinkedList.Append | src/app/utils/linked_list.c:61-79 | one fresh node at the end |
| LinkedLists.LinkedList.Prepend | src/app/utils/linked_list.c:48-59 | one fresh node at the front |
| LinkedLists.LinkedList.IteratorNext | src/app/utils/linked_list.c:150-163 | the element and the next link, or none at the end |
| LinkedLists.RemoveMatchesSplit | src/app/utils/linked_list.h:163-180 | of the matching elements exactly the first go, the others all stay, both in order |
| LinkedLists.RemoveAllMatches | src/app/utils/linked_list.c:103-110 | without an effective limit only elements that do not match are left |
| MessageSlots.EveryMessageReportedOnce | src/app/middleware/msg_transceiver.c:603-626 | in every orderly run occupied slots and messages in transmission match one to one, and every message is reported exactly once with its own callback and user data, at once with false if no slot is free |
| MessageSlots.ReportsAreTrue | src/app/middleware/msg_transceiver.c:48-63 | in every orderly run each call has the network's result on its message, or false for one sent while all slots were occupied; and each result of the network is called |
| MessageSlots.StepReports | src/app/middleware/msg_transceiver.c:603-626 | a completion calls back with its result, a send with false exactly if no slot is vacant, and nothing else calls |
| MessageSlots.SendKeeps | src/app/middleware/msg_transceiver.c:603-626 | a send keeps this |
| MessageSlots.CompleteKeeps | src/app/middleware/msg_transceiver.c:48-63 | a transmit report keeps this |
| MessageSlots.DeinitTrackedExactly | src/app/middleware/msg_transceiver.c:646-660 | a deinitialization keeps this if and only if no message is in transmission |
| MessageSlots.DeinitWhileOutstanding | src/app/middleware/msg_transceiver.c:646-660 | a concrete run in which a deinitialization makes a sender get another message's result |
| Transceivers.MsgTransceiver.SendAlertStatusChangeMessage | src/app/middleware/msg_transceiver.c:603-626 | takes the first vacant slot in place, or reports false if all are occupied |
| Transceivers.MsgTransceiver.TransmitComplete | src/app/middleware/msg_transceiver.c:48-63 | calls the sender of the message that holds the slot with the given result and vacates it; ignored on a vacant slot |
| Transceivers.MsgTransceiver.FindEmptyMessageSlot | src/app/middleware/msg_transceiver.c:555-564 | the first vacant slot |
| Transceivers.MsgTransceiver.Init | src/app/middleware/msg_transceiver.c:594-601 | all slots vacant |
| Transceivers.MsgTransceiver.Deinit | src/app/middleware/msg_transceiver.c:646-660 | all slots vacant, whatever is in transmission; nothing if already done |
| Wire.ParseInvertsSerialize | src/app/middleware/msg_transceiver.c:502-548 | parsing the serialization of any message that fits gives the message back |
| Wire.ParseIsExact | src/app/middleware/msg_transceiver.c:538-543 | what is accepted was read to its last byte and is the serialization of the result, empty groups included |
| Wire.HeaderLayout | src/app/middleware/msg_transceiver.c:502-548 | every field in front of the groups in terms of the bytes at its place |
| Wire.RequirementLayout | src/app/middleware/msg_transceiver.c:290-429 | which bytes are a comparison, and its variable, operator and value in terms of them |
| Wire.GroupsLayout | src/app/middleware/msg_transceiver.c:446-469 | groups follow each other, each with its number of comparisons first |
| Wire.MessageOfTheExample | src/app/middleware/msg_transceiver.c:502-548 | 29 bytes and the message that they are |
| Wire.RequirementInverse | src/app/middleware/msg_transceiver.c:290-429 | every comparison in range survives encoding, two's complement temperatures included |
| Wire.OrIsSum | src/app/middleware/msg_transceiver.c:93-97 | joining little-endian bytes by OR is adding their multiples |
| MessageParsers.ParseAddAlert | src/app/middleware/msg_transceiver.c:502-548 | the one-pass parser with an index computes the specification's parse, flattened |
| MessageParsers.ParseOredRequirement | src/app/middleware/msg_transceiver.c:446-469 | appends one group with its last-in-group flag, or fails without space or bytes |
| MessageParsers.ParseOredRequirements | src/app/middleware/msg_transceiver.c:533-537 | appends all groups in turn |
| MessageParsers.ParseVariableRequirement | src/app/middleware/msg_transceiver.c:393-429 | one comparison by its variable's format, or failure |
| Validators.IsAlertValid | src/app/glue/alert_validator.c:182-198 | accepts exactly alerts with a valid id, LED, some notification and a valid condition |
| Validators.IsAlertConditionValid | src/app/glue/alert_validator.c:144-175 | accepts exactly nonempty conditions of valid requirements whose last one ends its group |
| Validators.ValidExactly | src/app/glue/alert_validator.c:144-198 | the flattened alert is valid exactly if the message is acceptable in terms of its groups |
| Validators.LiteralExactly | src/app/alert_condition.h:13-28 | the built condition agrees with the literal AND over all groups, an empty OR being false, if and only if no group is empty or one that is not empty is false |
| Validators.EmptyGroupVanishes | src/app/glue/alert_validator.c:144-175 | an acceptable message with an empty group and readings for which the two differ |
| Validators.StatedMeans | src/app/alert_condition.h:13-28 | the stated condition is the AND over the nonempty groups of the OR of their comparisons |
| Validators.BuiltIsStated | src/app/glue/alert_adder.c:124-166 | reading the flags back gives the groups of the message without the empty ones |
| Pools.Pool.Alloc | src/interfaces/defs/include/linked_list_node_allocator.h:1-40 | a block not yet live becomes live if there is room; an exhausted pool gives none, which no caller ever meets |
| Pools.Pool.Free | src/interfaces/defs/include/linked_list_node_allocator.h:1-40 | a live block is freed; freeing any other is an assert |

## Left out

- Sensors, drivers, the Bluetooth stack, the LED hardware and everything of the platform behind them: samples, received bytes, expiries and transmit reports are events, commands to the LED and to timers are values and logs.
- Concurrency: src/hal/impl/nrf52840dk/ble/eass.c:29-36 calls the receive callback on the Bluetooth stack's own thread, while the design wants all logic on one queue; handlers running one at a time is an assumption.
- The central event queue, its encoding and its overflow, and the initialization sequence of the board.
- Assert macros that compile to nothing: asserts are taken as always evaluated, also where one contains a call, as in src/app/led_notification_executor.c:10.
- Logging, and the clock that only throttles it (src/app/glue/event_handlers/new_sample_handler.c:183-188).
- Callbacks as values: the LED manager's removal is the walk `FirstMatch`, the pre-remove callback and `Unlink` in a row, which is what the list's removal with limit 1 and that callback does; the for-each functions are the loops `Sweep` and `DestroyRequirements` with their callbacks in place.
- LinkedLists.LinkedList.RemoveOnConditionWithLimit: takes no pre-remove callback. The one caller that gives one removes a single node, which is `RemoveLocated`; `FirstMatchGoes` says it is the same removal with limit 1.
- Validators.IsAlertConditionValid: the variable of a comparison is always valid here, since the parser refuses any other identifier; the validator's own test of it cannot fail and is left out.
- The removal of a given element (src/app/utils/linked_list.c:81-91), which the application does not use, and checks of arguments against NULL.
- The four copies of the modules per variable (src/app/temperature_requirement_list.c and the like): one module, with the variable as a parameter.
- The ready callback (src/app/alert_evaluation_readiness.c:71-75), which the application never sets.
- The static arrays of conditions and raisers, filled once, are immutable sequences; memory blocks of the pools are fresh objects.
- The width of counters and of size_t, apart from the limit of an unlimited removal and the clock; sample values are integers of any size, constants of comparisons have the widths of the format.
- The validator reading before the array for a condition without requirements (src/app/glue/alert_validator.c:169-171): such a condition is refused.
- TimedRaising.ChangeIsTimely: says that a change is not too early, and of fresh expiries only; `LastingTakesEffect` says that it comes, `ExpiryTimelyExactly` and `StaleExpiryRaisesEarly` what happens for stale ones. The same goes for TimedRaising.DebounceInFreshRuns.
- TimedEngines.DebouncedEndToEnd: sees one alert's timers at a time; the timers of the other alerts may run out whenever they like.
- EasTime.FilterCorrectInWindow: up to a bounded time after the last start only; `FilterCorrectExactly` gives the exact condition.
- MessageSlots.EveryMessageReportedOnce: if nothing is in transmission at a deinitialization, which `DeinitTrackedExactly` shows to be needed. The application never deinitializes.
- Applications.Application.Handle: the order in which a sample tells alerts is that of a sweep through the lists as they are. That a new requirement comes first in its list is stated for the list (`AddToList`), not again for the application, and which caches are filled is not followed over a run.
