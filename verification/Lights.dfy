/** What an alert has on the LED: the commands for all alerts, given one after
    the other, and those for one alert among them. */
module Lights {
  import opened Domain
  import opened Sequences
  import opened Raising
  import opened LedRing
  import opened LedManagers
  import opened Notifiers
  import opened RaiserBanks

  /** Every LED that was added was removed before the next one was added. */
  predicate Paired(lit: seq<Op<Led>>) {
    forall k {:trigger lit[k]} | 0 <= k < |lit| ::
      if k % 2 == 0 then lit[k].Add? else lit[k - 1].Add? && lit[k] == Remove(lit[k - 1].x)
  }

  /** The LED that was added and not yet removed. */
  function OpenLed(lit: seq<Op<Led>>): Option<Led>
  {
    if lit != [] && lit[|lit| - 1].Add? then Some(lit[|lit| - 1].x) else None
  }

  lemma LastOf(lit: seq<Op<Led>>)
    requires Paired(lit) && lit != []
    ensures lit[|lit| - 1].Add? <==> |lit| % 2 == 1
  {
    var k := |lit| - 1;
    assert if k % 2 == 0 then lit[k].Add? else lit[k - 1].Add? && lit[k] == Remove(lit[k - 1].x);
  }

  /** The commands of an alert with this LED setting, given its notifications,
      when it was `raised` and became `raised'`. */
  lemma LitFollows(lit: seq<Op<Led>>, led: Option<Led>, raised: bool, raised': bool)
    requires Paired(lit) && OpenLed(lit) == if raised then led else None
    ensures var lit' := lit + Lit(led, if raised' != raised then [raised'] else []);
            Paired(lit') && OpenLed(lit') == if raised' then led else None
  {
    if lit != [] {
      LastOf(lit);
    }
  }

  /** All commands follow the alerts of a configuration, and each alert's
      commands are paired. */
  ghost predicate Lawful(commands: seq<LedCommand>, n: nat) {
    && AllEnabled(DARK, OpsOf(commands))
    && KnownAlerts(commands, n)
    && (forall i | 0 <= i < n :: Paired(LitBy(commands, i)))
  }

  ghost function OpenLeds(commands: seq<LedCommand>, n: nat): (r: seq<Option<Led>>)
    requires Lawful(commands, n)
    ensures |r| == n && forall i | 0 <= i < n :: r[i] == OpenLed(LitBy(commands, i))
  {
    seq(n, i requires 0 <= i < n => OpenLed(LitBy(commands, i)))
  }

  lemma LitByLess(commands: seq<LedCommand>, c: LedCommand, i: nat)
    ensures LitBy(commands, i) <= LitBy(commands + [c], i)
  {
    LitByOneMore(commands, c, i);
  }

  /** What was lawful is lawful before its last command. */
  lemma LawfulBefore(commands: seq<LedCommand>, c: LedCommand, n: nat)
    requires Lawful(commands + [c], n)
    ensures Lawful(commands, n) && Enabled(ApplyAll(DARK, OpsOf(commands)), c.AsOp())
    ensures ApplyAll(DARK, OpsOf(commands + [c])) == Apply(ApplyAll(DARK, OpsOf(commands)), c.AsOp())
  {
    assert OpsOf(commands + [c]) == OpsOf(commands) + [c.AsOp()];
    ApplyConcat(DARK, OpsOf(commands), [c.AsOp()]);
    forall i | 0 <= i < n ensures Paired(LitBy(commands, i)) {
      LitByLess(commands, c, i);
      assert Paired(LitBy(commands + [c], i));
    }
  }

  /** The LED list holds what the commands have left open. */
  lemma {:induction false} OpenIsListed(commands: seq<LedCommand>, n: nat)
    requires Lawful(commands, n)
    ensures multiset(ApplyAll(DARK, OpsOf(commands)).entries) == Wanted(OpenLeds(commands, n))
    decreases |commands|
  {
    if commands == [] {
      NothingWanted(OpenLeds(commands, n));
    } else {
      var before, c := commands[..|commands| - 1], commands[|commands| - 1];
      assert commands == before + [c];
      LawfulBefore(before, c, n);
      OpenIsListed(before, n);
      OpenLedsFollow(before, c, n);
      OneMoreIsListed(ApplyAll(DARK, OpsOf(before)), c, OpenLeds(before, n), OpenLeds(commands, n));
    }
  }

  lemma OpenLedsFollow(commands: seq<LedCommand>, c: LedCommand, n: nat)
    requires Lawful(commands, n) && Lawful(commands + [c], n)
    ensures OpensOrCloses(OpenLeds(commands, n), c, OpenLeds(commands + [c], n))
  {
    hide AllEnabled, LitBy, OpenLed, Paired;
    assert c in commands + [c];
    forall i | 0 <= i < n
      ensures LitBy(commands + [c], i) ==
              if c.ForAlert? && c.alertId == i then LitBy(commands, i) + [c.op] else LitBy(commands, i)
    {
      LitByOneMore(commands, c, i);
    }
    if c.ForAlert? {
      OpenChanges(LitBy(commands, c.alertId), c.op);
    }
  }

  ghost predicate OpensOrCloses(leds: seq<Option<Led>>, c: LedCommand, leds': seq<Option<Led>>) {
    match c
    case Ticked => leds' == leds
    case ForAlert(i, op) =>
      && i < |leds| && !op.Tick?
      && leds[i] == (if op.Add? then None else Some(op.x))
      && leds' == leds[i := if op.Add? then Some(op.x) else None]
  }

  lemma OneMoreIsListed(r: Ring<Led>, c: LedCommand, leds: seq<Option<Led>>, leds': seq<Option<Led>>)
    requires r.Valid() && Enabled(r, c.AsOp())
    requires multiset(r.entries) == Wanted(leds) && OpensOrCloses(leds, c, leds')
    ensures multiset(Apply(r, c.AsOp()).entries) == Wanted(leds')
  {
    hide Wanted;
    DoMultiset(r, c.AsOp());
    if c.ForAlert? {
      WantedUpdate(leds, c.alertId, leds'[c.alertId]);
      ReplaceOne(Wanted(leds), leds[c.alertId], leds'[c.alertId]);
    }
  }

  lemma OpenChanges(lit: seq<Op<Led>>, op: Op<Led>)
    requires Paired(lit) && Paired(lit + [op])
    ensures match op
            case Add(x) => OpenLed(lit) == None && OpenLed(lit + [op]) == Some(x)
            case Remove(x) => OpenLed(lit) == Some(x) && OpenLed(lit + [op]) == None
            case Tick => false
  {
    LastOf(lit + [op]);
    if lit != [] {
      LastOf(lit);
    }
  }

  /** What an alert has open is in the LED list. */
  lemma OpenIsThere(commands: seq<LedCommand>, n: nat, i: nat, led: Led)
    requires Lawful(commands, n) && i < n && OpenLed(LitBy(commands, i)) == Some(led)
    ensures led in ApplyAll(DARK, OpsOf(commands)).entries
  {
    OpenIsListed(commands, n);
    WantedUpdate(OpenLeds(commands, n), i, None);
    assert led in multiset(ApplyAll(DARK, OpsOf(commands)).entries);
  }

  lemma {:induction false} LitByConcat(a: seq<LedCommand>, b: seq<LedCommand>, i: nat)
    ensures LitBy(a + b, i) == LitBy(a, i) + LitBy(b, i)
    decreases |b|
  {
    if b == [] {
      assert a + b == a;
    } else {
      var before, c := b[..|b| - 1], b[|b| - 1];
      assert a + b == (a + before) + [c] && b == before + [c];
      LitByConcat(a, before, i);
      LitByOneMore(a + before, c, i);
      LitByOneMore(before, c, i);
    }
  }

  lemma {:induction false} LawfulPrefix(a: seq<LedCommand>, b: seq<LedCommand>, n: nat)
    requires Lawful(a + b, n)
    ensures Lawful(a, n)
    decreases |b|
  {
    if b == [] {
      assert a + b == a;
    } else {
      var before, c := b[..|b| - 1], b[|b| - 1];
      assert a + b == (a + before) + [c];
      LawfulBefore(a + before, c, n);
      LawfulPrefix(a, before, n);
    }
  }

  /** As long as an alert gives no command, what it has open stays in the list. */
  lemma {:induction false} OpenSurvives(before: seq<LedCommand>, more: seq<LedCommand>, n: nat, i: nat, led: Led)
    requires Lawful(before + more, n) && i < n
    requires OpenLed(LitBy(before, i)) == Some(led) && LitBy(more, i) == []
    ensures Lawful(before, n) && Survives(ApplyAll(DARK, OpsOf(before)), OpsOf(more), led)
    decreases |more|
  {
    LawfulPrefix(before, more, n);
    OpenIsThere(before, n, i, led);
    if more != [] {
      var c, rest := more[0], more[1..];
      assert before + more == (before + [c]) + rest && more == [c] + rest;
      LitByConcat([c], rest, i);
      LitByConcat(before, [c], i);
      assert LitBy([c], i) == [];
      LawfulPrefix(before + [c], rest, n);
      LawfulBefore(before, c, n);
      OpenSurvives(before + [c], rest, n, i, led);
      assert OpsOf(more)[1..] == OpsOf(rest);
    }
  }

  /** Fairness for alerts: while an alert gives no command, the LED it has open
      is displayed as soon as the ticks make up for its distance and the delays. */
  lemma OpenIsDisplayed(before: seq<LedCommand>, more: seq<LedCommand>, n: nat, i: nat, led: Led)
    requires Lawful(before + more, n) && i < n
    requires OpenLed(LitBy(before, i)) == Some(led) && LitBy(more, i) == []
    ensures Lawful(before, n) && Survives(ApplyAll(DARK, OpsOf(before)), OpsOf(more), led)
    ensures var r, ops := ApplyAll(DARK, OpsOf(before)), OpsOf(more);
            && (Ticks(ops) >= Distance(r, led) + Delay(r, ops, led) ==> EverDisplayed(r, ops, led))
            && (Delay(r, ops, led) == AddsBefore(r, ops, led) <==> NoneSetsBack(r, ops, led))
            && (Remove(led) !in ops ==> NoneSetsBack(r, ops, led))
  {
    hide AllEnabled, ApplyAll, Lawful, LitBy;
    OpenSurvives(before, more, n, i, led);
    OpenIsThere(before, n, i, led);
    SegmentEnabled(before, more, n);
    var r, ops := ApplyAll(DARK, OpsOf(before)), OpsOf(more);
    if Ticks(ops) >= Distance(r, led) + Delay(r, ops, led) {
      Fairness(r, ops, led);
    }
    if Remove(led) !in ops {
      KeptSurvives(r, ops, led);
    }
    DelayIsAddsExactly(r, ops, led);
  }

  lemma SegmentEnabled(before: seq<LedCommand>, more: seq<LedCommand>, n: nat)
    requires Lawful(before + more, n) && Lawful(before, n)
    ensures AllEnabled(ApplyAll(DARK, OpsOf(before)), OpsOf(more))
  {
    assert OpsOf(before + more) == OpsOf(before) + OpsOf(more);
    ApplyConcat(DARK, OpsOf(before), OpsOf(more));
  }

  /** A command that is given is given for some alert. */
  lemma {:induction false} SomeonesCommand(commands: seq<LedCommand>, n: nat, op: Op<Led>)
    requires KnownAlerts(commands, n) && op in OpsOf(commands) && !op.Tick?
    ensures exists j :: 0 <= j < n && op in LitBy(commands, j)
    decreases |commands|
  {
    var before, c := commands[..|commands| - 1], commands[|commands| - 1];
    assert commands == before + [c] && OpsOf(commands) == OpsOf(before) + [c.AsOp()];
    if c.AsOp() == op {
      assert c in commands;
      LitByOneMore(before, c, c.alertId);
      assert op in LitBy(commands, c.alertId);
    } else {
      assert forall x | x in before :: x in commands;
      SomeonesCommand(before, n, op);
      var j :| 0 <= j < n && op in LitBy(before, j);
      LitByLess(before, c, j);
      assert op in LitBy(commands, j);
    }
  }

  const CALM := Led(Red, Static)
  const ALARM := Led(Red, Alert)
  const NOTE := Led(Green, Static)

  /** Four alerts are raised, two of them with the same LED; then the first of
      these is silenced, and the timer expires once. */
  const RAISED: seq<LedCommand> :=
    [ForAlert(0, Add(CALM)), ForAlert(1, Add(ALARM)), ForAlert(2, Add(NOTE)), ForAlert(3, Add(ALARM))]
  const SILENCED: seq<LedCommand> := [ForAlert(1, Remove(ALARM)), Ticked]

  lemma LawfulMore(commands: seq<LedCommand>, c: LedCommand, n: nat)
    requires Lawful(commands, n) && Enabled(ApplyAll(DARK, OpsOf(commands)), c.AsOp())
    requires c.ForAlert? ==> c.alertId < n && Paired(LitBy(commands, c.alertId) + [c.op])
    ensures Lawful(commands + [c], n)
    ensures ApplyAll(DARK, OpsOf(commands + [c])) == Apply(ApplyAll(DARK, OpsOf(commands)), c.AsOp())
    ensures forall i: nat :: LitBy(commands + [c], i) ==
              LitBy(commands, i) + if c.ForAlert? && c.alertId == i then [c.op] else []
  {
    assert OpsOf(commands + [c]) == OpsOf(commands) + [c.AsOp()];
    ApplyConcat(DARK, OpsOf(commands), [c.AsOp()]);
    assert [c.AsOp()][1..] == [];
    forall i: nat
      ensures LitBy(commands + [c], i) ==
              LitBy(commands, i) + if c.ForAlert? && c.alertId == i then [c.op] else []
    {
      LitByOneMore(commands, c, i);
    }
  }

  lemma RaisedRing()
    ensures Lawful(RAISED, 4) && ApplyAll(DARK, OpsOf(RAISED)) == Ring([CALM, ALARM, NOTE, ALARM], 0)
    ensures forall i: nat | i < 4 :: LitBy(RAISED, i) == [RAISED[i].op]
  {
    hide AllEnabled, ApplyAll, LitBy, Lawful;
    Nothing();
    LawfulMore([], RAISED[0], 4);
    assert [] + [RAISED[0]] == RAISED[..1];
    LawfulMore(RAISED[..1], RAISED[1], 4);
    assert RAISED[..1] + [RAISED[1]] == RAISED[..2];
    LawfulMore(RAISED[..2], RAISED[2], 4);
    assert RAISED[..2] + [RAISED[2]] == RAISED[..3];
    LawfulMore(RAISED[..3], RAISED[3], 4);
    assert RAISED[..3] + [RAISED[3]] == RAISED;
  }

  lemma Nothing()
    ensures Lawful([], 4) && ApplyAll(DARK, OpsOf([])) == DARK && forall i: nat :: LitBy([], i) == []
  {
  }

  lemma AlarmIsNext()
    ensures var r := Ring([CALM, ALARM, NOTE, ALARM], 0);
            && Distance(r, ALARM) == 1 && SetsBack(r, ALARM)
            && Apply(r, Remove(ALARM)) == Ring([CALM, NOTE, ALARM], 0)
  {
    var r := Ring([CALM, ALARM, NOTE, ALARM], 0);
    IndexIs(Rotation(r), ALARM, 1);
    IndexIs(r.entries, ALARM, 1);
    assert Rotation(r)[2..] == [NOTE, ALARM];
    assert Without(r.entries, 1) == [CALM, NOTE, ALARM];
  }

  /** The removal of an equal entry can delay: alert 3 stays raised and gives no
      command, and yet its LED is not displayed when its distance and the
      additions are made up for. */
  lemma RemovalOfAnEqualDelays()
    ensures Lawful(RAISED + SILENCED, 4) && Lawful(RAISED, 4)
    ensures OpenLed(LitBy(RAISED, 3)) == Some(ALARM) && LitBy(SILENCED, 3) == []
    ensures var r, ops := ApplyAll(DARK, OpsOf(RAISED)), OpsOf(SILENCED);
            && Survives(r, ops, ALARM) && SetsBack(r, ALARM)
            && Ticks(ops) == Distance(r, ALARM) + Adds(ops) && !EverDisplayed(r, ops, ALARM)
  {
    hide AllEnabled, ApplyAll, Lawful, LitBy;
    RaisedRing();
    AlarmIsNext();
    LawfulMore(RAISED, SILENCED[0], 4);
    LawfulMore(RAISED + [SILENCED[0]], SILENCED[1], 4);
    assert RAISED + [SILENCED[0]] + [SILENCED[1]] == RAISED + SILENCED;
    LitByConcat(RAISED, SILENCED, 3);
    AlarmHasToWait();
  }

  lemma AlarmHasToWait()
    ensures var r, ops := Ring([CALM, ALARM, NOTE, ALARM], 0), OpsOf(SILENCED);
            && Survives(r, ops, ALARM) && Ticks(ops) == 1 && Adds(ops) == 0 && !EverDisplayed(r, ops, ALARM)
  {
    hide Survives, EverDisplayed, Distance, SetsBack;
    AlarmIsNext();
    var r, ops := Ring([CALM, ALARM, NOTE, ALARM], 0), OpsOf(SILENCED);
    var r1, r2 := Ring([CALM, NOTE, ALARM], 0), Ring([CALM, NOTE, ALARM], 1);
    assert Apply(r1, Tick) == r2;
    NoStep(r2, ALARM);
    OneStep(r1, Tick, [], ALARM);
    OneStep(r, Remove(ALARM), [Tick] + [], ALARM);
    assert ops == [Remove(ALARM)] + ([Tick] + []);
  }
}
