/** Which alerts are accepted (src/app/glue/alert_validator.c), and what an
    accepted alert means (the mappings of src/app/glue/alert_adder.c). */
module Validators {
  import opened Domain
  import opened Wire
  import opened MessageParsers
  import opened LedManagers
  import opened Notifiers
  import opened Conditions

  predicate ValidLed(led: WireLed) {
    led.color <= 2 && led.pattern <= 1
  }

  predicate ValidOperator(operator: byte) {
    operator <= 1
  }

  /** In tenths of a degree, of a hPa and of a percent, and in lux. */
  predicate ValidConstraintValue(v: Variable, value: int) {
    match v
    case Temperature => -500 <= value <= 700
    case Pressure => value <= 15000
    case Humidity => value <= 1000
    case LightIntensity => value <= 130000
  }

  predicate ValidRequirement(r: WireRequirement) {
    ValidOperator(r.operator) && ValidConstraintValue(r.variable, r.value)
  }

  predicate IsAlertIdValid(alertId: byte, maxAlerts: nat) {
    alertId < maxAlerts
  }

  /** What makes a message acceptable, in terms of its groups. */
  ghost predicate Acceptable(m: Message, maxAlerts: nat) {
    && m.alertId < maxAlerts
    && (m.connectivity || m.led.Some?)
    && (m.led.Some? ==> ValidLed(m.led.value))
    && (exists g :: g in m.groups && g != [])
    && forall g, r | g in m.groups && r in g :: ValidRequirement(r)
  }

  /** Stops at the first invalid requirement. No requirement at all is invalid,
      and so is a last one that does not end its group. */
  method IsAlertConditionValid(requirements: seq<FlatRequirement>) returns (valid: bool)
    ensures valid <==>
      && requirements != []
      && (forall i | 0 <= i < |requirements| :: ValidRequirement(requirements[i].requirement))
      && requirements[|requirements| - 1].isLastInOredRequirement
  {
    var allOperatorsValid, allConstraintValuesValid := true, true;
    var i := 0;
    while i < |requirements|
      invariant i <= |requirements| && allOperatorsValid && allConstraintValuesValid
      invariant forall j | 0 <= j < i :: ValidRequirement(requirements[j].requirement)
    {
      var r := requirements[i].requirement;
      if !ValidOperator(r.operator) {
        allOperatorsValid := false;
        break;
      }
      if !ValidConstraintValue(r.variable, r.value) {
        allConstraintValuesValid := false;
        break;
      }
      i := i + 1;
    }
    valid := requirements != [] && allOperatorsValid && allConstraintValuesValid
             && requirements[|requirements| - 1].isLastInOredRequirement;
  }

  method IsAlertValid(alert: Alert, maxAlerts: nat) returns (valid: bool)
    ensures valid <==> IsValid(alert, maxAlerts)
  {
    var ledValid := alert.led == None || ValidLed(alert.led.value);
    var conditionValid := IsAlertConditionValid(alert.requirements);
    valid := IsAlertIdValid(alert.alertId, maxAlerts) && ledValid
             && !(!alert.connectivity && alert.led == None) && conditionValid;
  }

  ghost predicate IsValid(alert: Alert, maxAlerts: nat) {
    && alert.alertId < maxAlerts
    && (alert.connectivity || alert.led.Some?)
    && (alert.led.Some? ==> ValidLed(alert.led.value))
    && alert.requirements != []
    && (forall i | 0 <= i < |alert.requirements| :: ValidRequirement(alert.requirements[i].requirement))
    && alert.requirements[|alert.requirements| - 1].isLastInOredRequirement
  }

  // ---- meaning ----

  function LedColorOf(color: byte): LedColor
    requires color <= 2
  {
    match color case 0 => Red case 1 => Green case _ => Blue
  }

  function LedPatternOf(pattern: byte): LedPattern
    requires pattern <= 1
  {
    if pattern == 0 then Static else LedPattern.Alert
  }

  function LedOf(led: WireLed): Led
    requires ValidLed(led)
  {
    Led(LedColorOf(led.color), LedPatternOf(led.pattern))
  }

  function OperatorOf(operator: byte): Operator
    requires ValidOperator(operator)
  {
    if operator == 0 then Geq else Leq
  }

  function ComparisonOf(r: WireRequirement): Comparison
    requires ValidOperator(r.operator)
  {
    Comparison(r.variable, OperatorOf(r.operator), r.value)
  }

  function SettingOf(alert: Alert): Setting
    requires alert.led.Some? ==> ValidLed(alert.led.value)
  {
    Setting(alert.connectivity, if alert.led.Some? then Some(LedOf(alert.led.value)) else None)
  }

  function GroupOf(g: seq<WireRequirement>): (r: seq<Comparison>)
    requires forall x | x in g :: ValidOperator(x.operator)
    ensures |r| == |g| && forall i | 0 <= i < |r| :: r[i] == ComparisonOf(g[i])
  {
    seq(|g|, i requires 0 <= i < |g| => ComparisonOf(g[i]))
  }

  /** The condition that a message states: its groups without the empty ones. */
  function Stated(groups: seq<seq<WireRequirement>>): (r: Cnf)
    requires forall g, x | g in groups && x in g :: ValidOperator(x.operator)
  {
    if groups == [] then []
    else (if groups[0] == [] then [] else [GroupOf(groups[0])]) + Stated(groups[1..])
  }

  predicate KnownOperators(groups: seq<seq<WireRequirement>>) {
    forall g, x | g in groups && x in g :: ValidOperator(x.operator)
  }

  /** One of the comparisons of a group of the message holds. */
  ghost predicate GroupHolds(g: seq<WireRequirement>, values: Readings) {
    exists r :: r in g && IsMet(r, values)
  }

  /** Operator 0 asks for at least the value, operator 1 for at most the value. */
  ghost predicate IsMet(r: WireRequirement, values: Readings) {
    r.variable in values && if r.operator == 0 then values[r.variable] >= r.value else values[r.variable] <= r.value
  }

  lemma MetHolds(r: WireRequirement, values: Readings)
    requires ValidOperator(r.operator)
    ensures IsMet(r, values) <==> Holds(ComparisonOf(r), values)
  {
  }

  /** What the stated condition means, in terms of the message. */
  lemma {:induction false} StatedMeans(groups: seq<seq<WireRequirement>>, values: Readings)
    requires KnownOperators(groups)
    ensures EvalCnf(Stated(groups), values) <==> forall g | g in groups && g != [] :: GroupHolds(g, values)
  {
    if groups != [] {
      var g, rest := groups[0], groups[1..];
      StatedMeans(rest, values);
      assert groups == [g] + rest && g in groups;
      if g == [] {
        assert Stated(groups) == Stated(rest);
      } else {
        GroupMeans(g, values);
        EvalCons(GroupOf(g), Stated(rest), values);
      }
    }
  }

  /** The built condition agrees with the literal AND over all groups, in which
      an empty OR is false, if and only if no group is empty or some group that
      is not empty is false anyway. */
  lemma LiteralExactly(groups: seq<seq<WireRequirement>>, values: Readings)
    requires KnownOperators(groups)
    ensures (EvalCnf(Stated(groups), values) <==> forall g | g in groups :: GroupHolds(g, values))
       <==> ([] !in groups || exists g :: g in groups && g != [] && !GroupHolds(g, values))
  {
    StatedMeans(groups, values);
    if [] in groups {
      var none: seq<WireRequirement> := [];
      assert !GroupHolds(none, values);
    }
  }

  /** An acceptable message with an empty group and readings for which its
      condition holds, although literally it cannot. */
  lemma EmptyGroupVanishes()
    ensures var r := WireRequirement(Temperature, 0, 0);
            var m := Message(0, 0, 0, true, None, [[], [r]]);
            var values: Readings := map[Temperature := 0];
            && Acceptable(m, 1) && Encodable(m, 1) && KnownOperators(m.groups)
            && EvalCnf(Stated(m.groups), values)
            && !(forall g | g in m.groups :: GroupHolds(g, values))
  {
    var r := WireRequirement(Temperature, 0, 0);
    var groups: seq<seq<WireRequirement>> := [[], [r]];
    var values: Readings := map[Temperature := 0];
    assert groups[0] == [] && groups[1] == [r] && groups[0] in groups && groups[1] in groups;
    assert Total(groups[1..]) == 1 + Total([]);
    StatedMeans(groups, values);
    forall g | g in groups && g != [] ensures GroupHolds(g, values) {
      assert r in g && IsMet(r, values);
    }
    LiteralExactly(groups, values);
  }

  lemma EvalCons(c: seq<Comparison>, rest: Cnf, values: Readings)
    ensures EvalCnf([c] + rest, values) <==> AnyHolds(c, values) && EvalCnf(rest, values)
  {
  }

  lemma GroupMeans(g: seq<WireRequirement>, values: Readings)
    requires forall x | x in g :: ValidOperator(x.operator)
    ensures AnyHolds(GroupOf(g), values) <==> GroupHolds(g, values)
  {
    hide Holds, IsMet;
    forall r | r in g ensures IsMet(r, values) <==> Holds(ComparisonOf(r), values) {
      MetHolds(r, values);
    }
    if AnyHolds(GroupOf(g), values) {
      var c :| c in GroupOf(g) && Holds(c, values);
      var i :| 0 <= i < |g| && GroupOf(g)[i] == c;
      assert g[i] in g;
    }
  }

  ghost predicate FlatAllValid(flat: seq<FlatRequirement>) {
    forall i | 0 <= i < |flat| :: ValidRequirement(flat[i].requirement)
  }

  ghost predicate GroupsAllValid(groups: seq<seq<WireRequirement>>) {
    forall g, r | g in groups && r in g :: ValidRequirement(r)
  }

  lemma FlatAllValidConcat(a: seq<FlatRequirement>, b: seq<FlatRequirement>)
    ensures FlatAllValid(a + b) <==> FlatAllValid(a) && FlatAllValid(b)
  {
    assert forall i | 0 <= i < |a| :: (a + b)[i] == a[i];
    assert forall i | 0 <= i < |b| :: (a + b)[|a| + i] == b[i];
  }

  lemma {:induction false} FlattenKeepsValidity(groups: seq<seq<WireRequirement>>)
    ensures FlatAllValid(FlattenGroups(groups)) <==> GroupsAllValid(groups)
    ensures FlattenGroups(groups) != [] <==> exists g :: g in groups && g != []
    ensures FlattenGroups(groups) != [] ==>
            FlattenGroups(groups)[|FlattenGroups(groups)| - 1].isLastInOredRequirement
  {
    if groups != [] {
      var g, rest := groups[0], groups[1..];
      FlattenKeepsValidity(rest);
      FlatAllValidConcat(FlattenGroup(g), FlattenGroups(rest));
      assert groups == [g] + rest && g in groups;
      assert forall x :: x in groups <==> x == g || x in rest;
      assert FlatAllValid(FlattenGroup(g)) <==> forall i | 0 <= i < |g| :: ValidRequirement(g[i]) by {
        assert forall i | 0 <= i < |g| :: FlattenGroup(g)[i].requirement == g[i];
      }
      assert (forall i | 0 <= i < |g| :: ValidRequirement(g[i])) <==> forall r | r in g :: ValidRequirement(r);
    }
  }

  /** The parser's flattening neither hides nor invents reasons to refuse. */
  lemma ValidExactly(m: Message, maxAlerts: nat)
    ensures IsValid(Flatten(m), maxAlerts) <==> Acceptable(m, maxAlerts)
  {
    FlattenKeepsValidity(m.groups);
  }

  // ---- the condition that is built ----

  /** The groups after adding the requirements one by one, starting a new group
      after each flagged one; the last group is still open. */
  function Built(flat: seq<FlatRequirement>): (r: Cnf)
    requires FlatOperatorsKnown(flat)
    ensures r != []
  {
    if flat == [] then [[]]
    else
      var x := flat[|flat| - 1];
      var added := AddToLast(Built(flat[..|flat| - 1]), ComparisonOf(x.requirement));
      if x.isLastInOredRequirement then StartNew(added) else added
  }

  predicate FlatOperatorsKnown(flat: seq<FlatRequirement>) {
    forall i | 0 <= i < |flat| :: ValidOperator(flat[i].requirement.operator)
  }

  lemma BuiltOne(flat: seq<FlatRequirement>, x: FlatRequirement)
    requires FlatOperatorsKnown(flat) && ValidOperator(x.requirement.operator)
    ensures FlatOperatorsKnown(flat + [x])
    ensures Built(flat + [x]) == (var added := AddToLast(Built(flat), ComparisonOf(x.requirement));
                                  if x.isLastInOredRequirement then StartNew(added) else added)
  {
  }

  /** While a group is read, it is the open one. */
  lemma {:induction false} BuiltRun(flat: seq<FlatRequirement>, closed: Cnf, g: seq<WireRequirement>, k: nat)
    requires FlatOperatorsKnown(flat) && Built(flat) == closed + [[]]
    requires k < |g| && forall x | x in g :: ValidOperator(x.operator)
    ensures FlatOperatorsKnown(flat + FlattenGroup(g)[..k])
    ensures Built(flat + FlattenGroup(g)[..k]) == closed + [GroupOf(g)[..k]]
    decreases k
  {
    hide Built;
    var run := FlattenGroup(g);
    if k == 0 {
      assert flat + run[..0] == flat && GroupOf(g)[..0] == [];
    } else {
      BuiltRun(flat, closed, g, k - 1);
      assert flat + run[..k] == (flat + run[..k - 1]) + [run[k - 1]];
      BuiltOne(flat + run[..k - 1], run[k - 1]);
      assert GroupOf(g)[..k] == GroupOf(g)[..k - 1] + [ComparisonOf(g[k - 1])];
    }
  }

  lemma BuiltGroup(flat: seq<FlatRequirement>, closed: Cnf, g: seq<WireRequirement>)
    requires FlatOperatorsKnown(flat) && Built(flat) == closed + [[]]
    requires g != [] && forall x | x in g :: ValidOperator(x.operator)
    ensures FlatOperatorsKnown(flat + FlattenGroup(g))
    ensures Built(flat + FlattenGroup(g)) == closed + [GroupOf(g)] + [[]]
  {
    hide Built;
    var run, k := FlattenGroup(g), |g| - 1;
    BuiltRun(flat, closed, g, k);
    assert flat + run == (flat + run[..k]) + [run[k]];
    BuiltOne(flat + run[..k], run[k]);
    assert GroupOf(g) == GroupOf(g)[..k] + [ComparisonOf(g[k])];
  }

  lemma {:induction false} StatedOneMore(groups: seq<seq<WireRequirement>>, g: seq<WireRequirement>)
    requires KnownOperators(groups + [g])
    ensures KnownOperators(groups) && g in groups + [g]
    ensures Stated(groups + [g]) == Stated(groups) + if g == [] then [] else [GroupOf(g)]
  {
    assert forall x | x in groups :: x in groups + [g];
    assert (groups + [g])[|groups|] == g;
    if groups == [] {
      assert groups + [g] == [g] && [g][1..] == [];
    } else {
      assert (groups + [g])[1..] == groups[1..] + [g];
      assert forall x | x in groups[1..] + [g] :: x in groups + [g];
      StatedOneMore(groups[1..], g);
    }
  }

  /** Reading the flags back gives the groups of the message without the empty
      ones: flattening keeps the meaning. */
  lemma {:induction false} BuiltIsStated(groups: seq<seq<WireRequirement>>)
    requires KnownOperators(groups)
    ensures FlatOperatorsKnown(FlattenGroups(groups))
    ensures Built(FlattenGroups(groups)) == Stated(groups) + [[]]
    decreases |groups|
  {
    hide Built, Stated;
    if groups == [] {
      NothingBuilt();
    } else {
      var front, g := groups[..|groups| - 1], groups[|groups| - 1];
      assert groups == front + [g];
      StatedOneMore(front, g);
      FlattenOneMore(front, g);
      BuiltIsStated(front);
      if g == [] {
        assert FlattenGroups(front) + FlattenGroup(g) == FlattenGroups(front);
      } else {
        BuiltGroup(FlattenGroups(front), Stated(front), g);
      }
    }
  }

  lemma NothingBuilt()
    ensures Built([]) == [[]] && Stated([]) == []
  {
  }
}
