/** Current values and variable requirements: src/app/value_holder.c with
    alert_evaluation_readiness.c, and src/app/variable_requirement.c with its
    four subclasses, one for each variable. */
module Requirements {
  import opened Domain

  /** The four current values and the flags of samples received. */
  class CurrentValues {
    var values: Readings
    var valueChanged: map<Variable, bool>
    var received: set<Variable>

    /** At event boundaries a value is there exactly if a sample was received. */
    ghost predicate Valid()
      reads this
    {
      && valueChanged.Keys == values.Keys
      && (forall v: Variable :: v in received <==> v in values)
    }

    constructor ()
      ensures Valid() && values == map[]
    {
      values, valueChanged, received := map[], map[], {};
    }

    method NotifyReceivedSample(v: Variable)
      modifies this`received
      ensures received == old(received) + {v}
    {
      received := received + {v};
    }

    method IsReady() returns (ready: bool)
      ensures ready <==> forall v: Variable :: v in received
    {
      ready := Temperature in received && Pressure in received && Humidity in received && LightIntensity in received;
      assert ready ==> forall v: Variable :: v in received by {
        forall v: Variable | ready ensures v in received {
          match v { case Temperature => case Pressure => case Humidity => case LightIntensity => }
        }
      }
    }

    /** value_holder_set. The first value counts as a change. */
    method Set(v: Variable, x: int)
      requires valueChanged.Keys == values.Keys
      modifies this`values, this`valueChanged
      ensures values == old(values)[v := x]
      ensures valueChanged == old(valueChanged)[v := v !in old(values) || old(values)[v] != x]
    {
      valueChanged := valueChanged[v := if v in values then values[v] != x else true];
      values := values[v := x];
    }

    /** Asking for a value that was never set fires an assert. */
    method Get(v: Variable) returns (x: int)
      requires v in values
      ensures x == values[v]
    {
      x := values[v];
    }

    method IsChanged(v: Variable) returns (changed: bool)
      requires v in valueChanged
      ensures changed == valueChanged[v]
    {
      changed := valueChanged[v];
    }
  }

  /** What a requirement remembers of its evaluations. */
  datatype Cache = Cache(evaluated: bool, previous: bool)

  const UNEVALUATED := Cache(false, false)

  class VariableRequirement {
    const comparison: Comparison
    const alertId: byte

    var evaluateHasBeenCalled: bool
    var isResultChanged: bool
    var previousEvaluationResult: bool

    constructor (alertId: byte, comparison: Comparison)
      ensures this.alertId == alertId && this.comparison == comparison && CacheOf() == UNEVALUATED
    {
      this.alertId := alertId;
      this.comparison := comparison;
      evaluateHasBeenCalled := false;
      isResultChanged := true;
      previousEvaluationResult := false;
    }

    ghost function CacheOf(): Cache
      reads this
    {
      Cache(evaluateHasBeenCalled, previousEvaluationResult)
    }

    /** The cache holds the current result. */
    ghost predicate Settled(values: Readings)
      reads this
    {
      CacheOf() == Cache(true, Holds(comparison, values))
    }

    /** The evaluate function of the subclass: a value is needed. */
    method EvaluateComparison(current: CurrentValues) returns (result: bool)
      requires comparison.variable in current.values
      ensures result == Holds(comparison, current.values)
      ensures result <==>
                var x := current.values[comparison.variable];
                (comparison.op == Geq && x >= comparison.bound) || (comparison.op == Leq && x <= comparison.bound)
    {
      var x := current.Get(comparison.variable);
      match comparison.op {
        case Geq => result := x >= comparison.bound;
        case Leq => result := x <= comparison.bound;
      }
    }

    method Evaluate(current: CurrentValues) returns (result: bool)
      requires comparison.variable in current.values
      modifies this
      ensures result == Holds(comparison, current.values) && Settled(current.values)
      ensures isResultChanged <==> old(CacheOf()) != CacheOf()
    {
      result := EvaluateComparison(current);
      if evaluateHasBeenCalled {
        isResultChanged := result != previousEvaluationResult;
      } else {
        isResultChanged := true;
      }
      previousEvaluationResult := result;
      evaluateHasBeenCalled := true;
    }

    /** Asking before the first evaluation fires an assert. */
    method IsResultChanged() returns (changed: bool)
      requires evaluateHasBeenCalled
      ensures changed == isResultChanged
    {
      changed := isResultChanged;
    }
  }
}
