/** The alert raiser (src/app/alert_raiser.c): two timers with a flag each. It
    refines `Raising.Debouncer`. The calls to the platform's timers and to the
    alert notifier are kept in a log. */
module AlertRaisers {
  import opened Domain
  import opened Raising
  import opened Notifiers

  class AlertRaiser {
    const notifier: AlertNotifier

    var warmupPeriodMs: uint32
    var isWarmupTimerRunning: bool
    var cooldownPeriodMs: uint32
    var isCooldownTimerRunning: bool
    var alertId: byte
    var isAlertRaised: bool
    var isAlertSet: bool
    /** The periods the platform's two timers were last given, 0 at first. */
    var warmupTimerMs: uint32
    var cooldownTimerMs: uint32

    /** The last result reported since the alert was set. */
    ghost var last: bool
    ghost var log: seq<Output>

    ghost function State(): Debouncer
      reads this
    {
      Debouncer(isAlertSet, alertId, warmupPeriodMs, cooldownPeriodMs, isAlertRaised, last)
    }

    ghost predicate Valid()
      reads this
      ensures Valid() ==> State().Valid()
    {
      && State().Valid()
      && (isWarmupTimerRunning <==> State().Pending(Warmup))
      && (isCooldownTimerRunning <==> State().Pending(Cooldown))
      && (isAlertSet && warmupPeriodMs > 0 ==> warmupTimerMs == warmupPeriodMs)
      && (isAlertSet && cooldownPeriodMs > 0 ==> cooldownTimerMs == cooldownPeriodMs)
    }

    /** The raiser may change the state of its alert. */
    ghost predicate CanChange(others: set<object>)
      reads this, notifier, notifier.Repr, notifier.manager.list.pool
    {
      && notifier.Ready(others) && this !in notifier.Repr
      && (isAlertSet ==> notifier.CanNotify(alertId, !isAlertRaised))
    }

    /** What an input does to the alert, to the log and to the notifier. */
    twostate predicate Changed(input: Input, others: set<object>)
      requires old(notifier.Valid()) && old(State()).Accepts(input)
      reads this, notifier, notifier.Repr, notifier.manager.list.pool
    {
      && State() == old(State()).Step(input)
      && log == old(log) + old(State()).Emits(input)
      && notifier.Ready(others) && fresh(notifier.Repr - old(notifier.Repr))
      && (isAlertRaised == old(isAlertRaised) ==> notifier.state == old(notifier.state))
      && (isAlertRaised != old(isAlertRaised) ==>
            && old(alertId) < |old(notifier.state).settings|
            && notifier.state == old(notifier.state).After(old(alertId), isAlertRaised))
    }

    constructor (notifier: AlertNotifier)
      ensures Valid() && this.notifier == notifier
      ensures State() == INITIAL && log == []
    {
      this.notifier := notifier;
      warmupPeriodMs, isWarmupTimerRunning, warmupTimerMs := 0, false, 0;
      cooldownPeriodMs, isCooldownTimerRunning, cooldownTimerMs := 0, false, 0;
      alertId, isAlertRaised, isAlertSet, last, log := 0, false, false, false, [];
    }

    /** Starting a timer with period 0 fires an assert. */
    method StartWarmupTimer()
      requires warmupTimerMs != 0
      modifies this`isWarmupTimerRunning, this`log
      ensures isWarmupTimerRunning && log == old(log) + [StartTimer(Warmup)]
    {
      log := log + [StartTimer(Warmup)];
      isWarmupTimerRunning := true;
    }

    method StartCooldownTimer()
      requires cooldownTimerMs != 0
      modifies this`isCooldownTimerRunning, this`log
      ensures isCooldownTimerRunning && log == old(log) + [StartTimer(Cooldown)]
    {
      log := log + [StartTimer(Cooldown)];
      isCooldownTimerRunning := true;
    }

    method StopWarmupTimer()
      modifies this`isWarmupTimerRunning, this`log
      ensures !isWarmupTimerRunning && log == old(log) + [StopTimer(Warmup)]
    {
      log := log + [StopTimer(Warmup)];
      isWarmupTimerRunning := false;
    }

    method StopCooldownTimer()
      modifies this`isCooldownTimerRunning, this`log
      ensures !isCooldownTimerRunning && log == old(log) + [StopTimer(Cooldown)]
    {
      log := log + [StopTimer(Cooldown)];
      isCooldownTimerRunning := false;
    }

    /** alert_notifier_notify and the flag that goes with it. */
    method NotifyAlert(raised: bool, now: nat, ghost others: set<object>)
      requires notifier.Ready(others) && this !in notifier.Repr
      requires notifier.CanNotify(alertId, raised)
      modifies this`isAlertRaised, this`log, notifier.Repr, notifier.manager.list.pool
      ensures notifier.Ready(others) && fresh(notifier.Repr - old(notifier.Repr))
      ensures notifier.state == old(notifier.state).After(alertId, raised)
      ensures isAlertRaised == raised && log == old(log) + [Notify(alertId, raised)]
      ensures unchanged(`alertId, `isAlertSet, `warmupPeriodMs, `cooldownPeriodMs, `warmupTimerMs, `cooldownTimerMs)
      ensures unchanged(`isWarmupTimerRunning, `isCooldownTimerRunning, `last)
    {
      hide AlertNotifier.Ready, AlertNotifier.CanNotify, AlertNotifier.Valid;
      notifier.Notify(alertId, raised, now, others);
      log := log + [Notify(alertId, raised)];
      isAlertRaised := raised;
    }

    method SetAlert(id: byte, warmupMs: uint32, cooldownMs: uint32)
      requires Valid() && !isAlertSet
      modifies this
      ensures Valid()
      ensures State() == old(State()).Step(Input.SetAlert(id, warmupMs, cooldownMs))
      ensures log == old(log) + old(State()).Emits(Input.SetAlert(id, warmupMs, cooldownMs))
    {
      if warmupMs > 0 {
        warmupTimerMs := warmupMs;
        log := log + [SetPeriod(Warmup, warmupMs)];
      }
      if cooldownMs > 0 {
        cooldownTimerMs := cooldownMs;
        log := log + [SetPeriod(Cooldown, cooldownMs)];
      }
      warmupPeriodMs := warmupMs;
      cooldownPeriodMs := cooldownMs;
      alertId := id;
      isAlertSet := true;
      last := false;
    }

    method UnsetAlert(now: nat, ghost others: set<object>)
      requires Valid() && CanChange(others)
      modifies this, notifier.Repr, notifier.manager.list.pool
      ensures Valid() && Changed(Input.UnsetAlert, others)
    {
      hide AlertNotifier.Ready, AlertNotifier.CanNotify, AlertNotifier.Valid;
      if isWarmupTimerRunning {
        StopWarmupTimer();
      }
      if isCooldownTimerRunning {
        StopCooldownTimer();
      }
      if isAlertRaised {
        NotifyAlert(false, now, others);
      }
      isAlertSet := false;
      last := false;
    }

    method SetAlertConditionResult(result: bool, now: nat, ghost others: set<object>)
      requires Valid() && CanChange(others) && isAlertSet
      modifies this, notifier.Repr, notifier.manager.list.pool
      ensures Valid() && Changed(SetResult(result), others)
    {
      hide AlertNotifier.Ready, AlertNotifier.CanNotify, AlertNotifier.Valid;
      last := result;
      if isAlertRaised == result {
        var isTimerRunning := if isAlertRaised then isCooldownTimerRunning else isWarmupTimerRunning;
        if isTimerRunning {
          if isAlertRaised {
            StopCooldownTimer();
          } else {
            StopWarmupTimer();
          }
        }
      } else {
        var periodMs := if result then warmupPeriodMs else cooldownPeriodMs;
        if periodMs > 0 {
          var isTimerRunning := if result then isWarmupTimerRunning else isCooldownTimerRunning;
          if !isTimerRunning {
            if result {
              StartWarmupTimer();
            } else {
              StartCooldownTimer();
            }
          }
        } else {
          NotifyAlert(result, now, others);
        }
      }
    }

    /** Runs for every expiry that reaches the event queue's head, be it of a
        timer stopped or restarted meanwhile. */
    method WarmupPeriodExpiredCb(now: nat, ghost others: set<object>)
      requires Valid() && CanChange(others)
      modifies this, notifier.Repr, notifier.manager.list.pool
      ensures Valid() && Changed(Expired(Warmup), others)
    {
      hide AlertNotifier.Ready, AlertNotifier.CanNotify, AlertNotifier.Valid;
      if isWarmupTimerRunning {
        NotifyAlert(true, now, others);
        isWarmupTimerRunning := false;
      }
    }

    method CooldownPeriodExpiredCb(now: nat, ghost others: set<object>)
      requires Valid() && CanChange(others)
      modifies this, notifier.Repr, notifier.manager.list.pool
      ensures Valid() && Changed(Expired(Cooldown), others)
    {
      hide AlertNotifier.Ready, AlertNotifier.CanNotify, AlertNotifier.Valid;
      if isCooldownTimerRunning {
        NotifyAlert(false, now, others);
        isCooldownTimerRunning := false;
      }
    }
  }
}
