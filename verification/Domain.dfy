/** Values shared by the whole model: machine integers, sensor variables,
    comparisons and conditions in conjunctive normal form. */
module Domain {

  datatype Option<+T> = None | Some(value: T)

  const TWO_TO_THE_8: int := 0x100
  const TWO_TO_THE_16: int := 0x1_0000
  const TWO_TO_THE_31: int := 0x8000_0000
  const TWO_TO_THE_32: int := 0x1_0000_0000

  type byte = x: int | 0 <= x < TWO_TO_THE_8
  type uint32 = x: int | 0 <= x < TWO_TO_THE_32

  datatype Variable = Temperature | Pressure | Humidity | LightIntensity

  datatype Operator = Geq | Leq

  /** One comparison of a sensor variable with a constant. */
  datatype Comparison = Comparison(variable: Variable, op: Operator, bound: int)

  /** Latest value of every variable sampled so far. */
  type Readings = map<Variable, int>

  /** An alert condition: an AND of ORs. */
  type Cnf = seq<seq<Comparison>>

  predicate Ready(values: Readings) {
    forall v: Variable :: v in values
  }

  predicate Compare(op: Operator, current: int, bound: int) {
    match op
    case Geq => current >= bound
    case Leq => current <= bound
  }

  /** False as long as the variable has not been sampled. */
  predicate Holds(c: Comparison, values: Readings) {
    c.variable in values && Compare(c.op, values[c.variable], c.bound)
  }

  predicate AnyHolds(group: seq<Comparison>, values: Readings) {
    exists c :: c in group && Holds(c, values)
  }

  predicate EvalCnf(cnf: Cnf, values: Readings) {
    forall group :: group in cnf ==> AnyHolds(group, values)
  }

  /** The verdict in numbers: in every group some variable has been sampled and
      is on the right side of its bound, the bound itself included. */
  lemma EvalInNumbers(cnf: Cnf, values: Readings)
    ensures EvalCnf(cnf, values) <==>
            forall group | group in cnf ::
              exists c :: c in group && c.variable in values &&
                if c.op.Geq? then values[c.variable] >= c.bound else values[c.variable] <= c.bound
  {
    forall c: Comparison
      ensures Holds(c, values) <==>
              c.variable in values && if c.op.Geq? then values[c.variable] >= c.bound else values[c.variable] <= c.bound
    {
    }
    forall group | group in cnf
      ensures AnyHolds(group, values) <==>
              exists c :: c in group && c.variable in values &&
                if c.op.Geq? then values[c.variable] >= c.bound else values[c.variable] <= c.bound
    {
    }
  }

  /** A comparison is monotone in its variable, and its bound belongs to it. */
  lemma HoldsFromBoundOn(v: Variable, bound: int, values: Readings, x: int)
    requires v in values
    ensures var geq, leq := Comparison(v, Geq, bound), Comparison(v, Leq, bound);
            && Holds(geq, values[v := bound]) && !Holds(geq, values[v := bound - 1])
            && Holds(leq, values[v := bound]) && !Holds(leq, values[v := bound + 1])
            && (Holds(geq, values) && x >= values[v] ==> Holds(geq, values[v := x]))
            && (Holds(leq, values) && x <= values[v] ==> Holds(leq, values[v := x]))
  {
  }
}
