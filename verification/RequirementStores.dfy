/** All variable requirements: the conditions they form
    (src/app/alert_conditions.c), the list of each variable
    (src/app/variable_requirement_list.c) and the pools they come from. */
module RequirementStores {
  import opened Domain
  import opened Sequences
  import opened Pools
  import opened LinkedLists
  import opened Requirements
  import opened Conditions
  import opened MessageParsers
  import opened Validators

  /** LINKED_LIST_REMOVE_NO_LIMIT, with a size_t of 32 bits. */
  const NO_LIMIT: nat := TWO_TO_THE_32 - 1

  ghost function OfAlert(live: set<VariableRequirement>, id: int): set<VariableRequirement> {
    set r | r in live && r.alertId == id
  }

  ghost function OfVariable(live: set<VariableRequirement>, v: Variable): set<VariableRequirement> {
    set r | r in live && r.comparison.variable == v
  }

  lemma OneMoreOfAlert(live: set<VariableRequirement>, r: VariableRequirement, id: int)
    ensures OfAlert(live + {r}, id) == if r.alertId == id then OfAlert(live, id) + {r} else OfAlert(live, id)
  {
  }

  lemma OneMoreOfVariable(live: set<VariableRequirement>, r: VariableRequirement)
    ensures forall v: Variable :: OfVariable(live + {r}, v) ==
              if r.comparison.variable == v then OfVariable(live, v) + {r} else OfVariable(live, v)
  {
  }

  /** How many comparisons a condition has. */
  function Size(cnf: Cnf): nat {
    if cnf == [] then 0 else |cnf[0]| + Size(cnf[1..])
  }

  lemma EmptySize()
    ensures Size([[]]) == 0
  {
  }

  lemma {:induction false} SizeConcat(a: Cnf, b: Cnf)
    ensures Size(a + b) == Size(a) + Size(b)
  {
    if a == [] {
      assert a + b == b;
    } else {
      assert (a + b)[1..] == a[1..] + b;
      SizeConcat(a[1..], b);
    }
  }

  /** The groups after one more requirement, which may end its group. */
  function Extended(open: Cnf, comparison: Comparison, isLast: bool): (r: Cnf)
    requires open != []
    ensures r != []
  {
    var added := AddToLast(open, comparison);
    if isLast then StartNew(added) else added
  }

  lemma ExtendedSize(open: Cnf, comparison: Comparison, isLast: bool)
    requires open != []
    ensures Size(Extended(open, comparison, isLast)) == Size(open) + 1
  {
    var front, g := open[..|open| - 1], open[|open| - 1];
    assert open == front + [g];
    SizeConcat(front, [g]);
    SizeConcat(front, [g + [comparison]]);
    SizeConcat(AddToLast(open, comparison), [[]]);
  }

  lemma CnfCommutes(groups: seq<seq<VariableRequirement>>, r: VariableRequirement)
    requires groups != []
    ensures var added := AddToLast(groups, r);
            && CnfOf(added) == AddToLast(CnfOf(groups), r.comparison)
            && CnfOf(StartNew(added)) == StartNew(CnfOf(added))
  {
    var n := |groups| - 1;
    assert Comparisons(groups[n] + [r]) == Comparisons(groups[n]) + [r.comparison];
    assert CnfOf(AddToLast(groups, r)) == AddToLast(CnfOf(groups), r.comparison);
  }

  /** A condition holds each of `mine` once and says what `open` says. */
  ghost predicate ConditionOk(c: AlertCondition, mine: set<VariableRequirement>, open: Cnf)
    reads c, c.variableRequirements
    ensures ConditionOk(c, mine, open) ==>
            && c.Valid() && c.Requirements() == mine && open == CnfOf(c.Groups()) && open != []
            && c.numRequirements == Size(open) == |mine|
  {
    && c.Valid() && c.NoRepeats()
    && c.Requirements() == mine && open == CnfOf(c.Groups())
    && c.numRequirements == Size(open) == |mine|
  }

  /** No cache is stale: one that was ever filled holds the current result. */
  ghost predicate CachesSound(live: set<VariableRequirement>, values: Readings)
    reads live
  {
    forall r | r in live :: r.CacheOf() == UNEVALUATED || (Ready(values) && r.Settled(values))
  }

  /** A list holds each of `mine` once. */
  ghost predicate ListOk(list: LinkedList<VariableRequirement>, mine: set<VariableRequirement>)
    reads list, list.nodes
    ensures ListOk(list, mine) ==> list.Valid() && ToSet(list.Contents()) == mine
    ensures ListOk(list, mine) ==> forall i | 0 <= i < |list.nodes| :: list.nodes[i].element in mine
  {
    list.Valid() && Distinct(list.Contents()) && ToSet(list.Contents()) == mine
  }

  /** variable_requirement_list_add. */
  method AddToList(list: LinkedList<VariableRequirement>, requirement: VariableRequirement,
                   ghost mine: set<VariableRequirement>)
    returns (ghost node: Node<VariableRequirement>)
    requires ListOk(list, mine) && list.NodeSet() <= list.pool.live && requirement !in mine
    requires |list.pool.live| < list.pool.capacity
    modifies list, list.pool
    ensures ListOk(list, mine + {requirement}) && list.Contents() == [requirement] + old(list.Contents())
    ensures list.NodeSet() == old(list.NodeSet()) + {node}
    ensures fresh(node) && node !in old(list.pool.live) && list.pool.live == old(list.pool.live) + {node}
  {
    hide LinkedList.Valid;
    ghost var contents := list.Contents();
    node := list.Prepend(requirement);
    assert list.Contents() == [requirement] + contents;
    DistinctExtend(contents, requirement);
    ToSetExtend(contents, requirement);
  }

  /** The create function of a requirement and its list's add function. */
  method CreateRequirement(id: byte, comparison: Comparison, list: LinkedList<VariableRequirement>, pool: Pool,
                           ghost mine: set<VariableRequirement>)
    returns (requirement: VariableRequirement, ghost node: Node<VariableRequirement>)
    requires ListOk(list, mine) && list.NodeSet() <= list.pool.live && list.pool != pool
    requires |list.pool.live| < list.pool.capacity && |pool.live| < pool.capacity
    modifies list, list.pool, pool
    ensures ListOk(list, mine + {requirement})
    ensures list.NodeSet() == old(list.NodeSet()) + {node}
    ensures fresh(node) && node !in old(list.pool.live) && list.pool.live == old(list.pool.live) + {node}
    ensures fresh(requirement) && pool.live == old(pool.live) + {requirement}
    ensures requirement.alertId == id && requirement.comparison == comparison && requirement.CacheOf() == UNEVALUATED
  {
    hide ListOk;
    requirement := new VariableRequirement(id, comparison);
    var ok := pool.Alloc(requirement);
    assert ok;
    node := AddToList(list, requirement, mine);
  }

  method AddToCondition(condition: AlertCondition, requirement: VariableRequirement, isLast: bool,
                        ghost mine: set<VariableRequirement>, ghost open: Cnf)
    requires ConditionOk(condition, mine, open) && Size(open) < condition.maxRequirements
    requires requirement !in mine
    modifies condition, condition.variableRequirements
    ensures ConditionOk(condition, mine + {requirement}, Extended(open, requirement.comparison, isLast))
  {
    hide Split, AlertCondition.Groups, AlertCondition.Valid, AlertCondition.NoRepeats, Size;
    CnfCommutes(condition.Groups(), requirement);
    ExtendedSize(open, requirement.comparison, isLast);
    condition.AddVariableRequirement(requirement);
    if isLast {
      condition.StartNewOredRequirement();
    }
  }

  method ResetEmpty(condition: AlertCondition, ghost mine: set<VariableRequirement>)
    requires ConditionOk(condition, mine, [[]])
    modifies condition
    ensures ConditionOk(condition, mine, [[]])
  {
    EmptySize();
    condition.Reset();
    assert CnfOf([[]]) == [[]];
  }

  /** An unlimited removal keeps exactly the elements that do not match. */
  lemma {:induction false} RemoveAllKeeps<T>(s: seq<T>, limit: nat, cond: T -> bool)
    requires Distinct(s) && |s| <= limit
    ensures Distinct(RemoveMatches(s, limit, cond))
    ensures forall x :: x in RemoveMatches(s, limit, cond) <==> x in s && !cond(x)
  {
    if s != [] {
      OnlyAt(s, 0);
      forall i, j | 0 <= i < j < |s| - 1 ensures Differ(s[1..], i, j) {
        assert Differ(s, i + 1, j + 1);
      }
      var rest := if cond(s[0]) then limit - 1 else limit;
      RemoveAllKeeps(s[1..], rest, cond);
      assert s == [s[0]] + s[1..];
      if !cond(s[0]) {
        DistinctExtend(RemoveMatches(s[1..], rest, cond), s[0]);
      }
    }
  }

  /** variable_requirement_list_remove_all_for_alert. */
  method RemoveAllForAlert(list: LinkedList<VariableRequirement>, id: byte, ghost mine: set<VariableRequirement>)
    requires ListOk(list, mine) && list.NodeSet() <= list.pool.live
    requires |mine| <= NO_LIMIT
    modifies list, list.nodes, list.pool
    ensures ListOk(list, mine - OfAlert(mine, id))
    ensures list.NodeSet() <= old(list.NodeSet())
    ensures list.pool.live == old(list.pool.live) - (old(list.NodeSet()) - list.NodeSet())
  {
    hide LinkedList.Valid;
    ghost var contents := list.Contents();
    var hasAlertId := (r: VariableRequirement) => r.alertId == id;
    var _ := list.RemoveOnConditionWithLimit(NO_LIMIT, hasAlertId);
    ToSetSize(contents);
    RemoveAllKeeps(contents, NO_LIMIT, hasAlertId);
  }

  ghost predicate Empty(c: AlertCondition, room: nat)
    reads c, c.variableRequirements
    ensures Empty(c, room) ==> c.maxRequirements == room
  {
    && c.Valid() && c.maxRequirements == room && c.NoRepeats()
    && c.Groups() == [[]] && c.Requirements() == {} && c.numRequirements == 0
  }

  /** alert_conditions_create_instances. */
  method CreateConditions(numAlerts: nat, room: nat) returns (made: seq<AlertCondition>, ghost parts: set<object>)
    requires room >= 1
    ensures |made| == numAlerts && Distinct(made)
    ensures forall j | 0 <= j < |made| :: Empty(made[j], room)
    ensures forall j | 0 <= j < |made| :: made[j] in parts && made[j].variableRequirements in parts
    ensures fresh(parts)
    ensures forall j, k | 0 <= j < k < |made| :: made[j].variableRequirements != made[k].variableRequirements
  {
    hide AlertCondition.Valid, AlertCondition.Groups, AlertCondition.Requirements;
    made, parts := [], {};
    for i := 0 to numAlerts
      invariant |made| == i && Distinct(made)
      invariant forall j | 0 <= j < i :: Empty(made[j], room)
      invariant forall j | 0 <= j < i :: made[j] in parts && made[j].variableRequirements in parts
      invariant fresh(parts)
      invariant forall j, k | 0 <= j < k < i :: made[j].variableRequirements != made[k].variableRequirements
    {
      var condition := new AlertCondition(room);
      DistinctExtend(made, condition);
      made := made + [condition];
      parts := parts + {condition, condition.variableRequirements};
    }
  }

  /** The nodes that left the lists, and no others, were given back. */
  ghost predicate Freed(nodes: set<object>, nodes': set<object>, pool: set<object>, pool': set<object>)
    ensures Freed(nodes, nodes', pool, pool') && nodes <= pool ==> nodes' <= nodes && nodes' <= pool'
  {
    nodes' <= nodes && pool' == pool - (nodes - nodes')
  }

  lemma NoneFreed(nodes: set<object>, pool: set<object>)
    ensures Freed(nodes, nodes, pool, pool)
  {
  }

  lemma FreedOn(n0: set<object>, n1: set<object>, n2: set<object>, p0: set<object>, p1: set<object>, p2: set<object>)
    requires Freed(n0, n1, p0, p1) && Freed(n1, n2, p1, p2)
    ensures Freed(n0, n2, p0, p2)
  {
  }

  class RequirementStore {
    const numAlerts: nat
    const room: nat
    const nodePool: Pool
    const requirementPool: Pool
    const current: CurrentValues
    const conditions: seq<AlertCondition>
    const temperatures: LinkedList<VariableRequirement>
    const pressures: LinkedList<VariableRequirement>
    const humidities: LinkedList<VariableRequirement>
    const lightIntensities: LinkedList<VariableRequirement>

    /** Every requirement that exists. */
    ghost var live: set<VariableRequirement>
    /** What the conditions say; the last group is still open. */
    ghost var groups: seq<Cnf>
    ghost var Repr: set<object>

    function List(v: Variable): LinkedList<VariableRequirement> {
      match v
      case Temperature => temperatures
      case Pressure => pressures
      case Humidity => humidities
      case LightIntensity => lightIntensities
    }

    ghost predicate Shape()
      reads this
      ensures Shape() ==> |conditions| == |groups| == numAlerts
    {
      && {this, current, requirementPool, temperatures, pressures, humidities, lightIntensities} <= Repr
      && nodePool !in Repr
      && |conditions| == |groups| == numAlerts <= TWO_TO_THE_8 && room >= 1 && numAlerts * room <= NO_LIMIT
      && (forall i | 0 <= i < numAlerts ::
            && conditions[i] in Repr && conditions[i].variableRequirements in Repr
            && conditions[i].maxRequirements == room)
      && Distinct(conditions)
      && (forall i, j | 0 <= i < j < numAlerts ::
            conditions[i].variableRequirements != conditions[j].variableRequirements)
      && (forall v: Variable :: List(v).pool == nodePool)
      && (forall u, v: Variable | u != v :: List(u) != List(v))
      && live <= Repr && (forall r | r in live :: r.alertId < numAlerts)
    }

    /** Every requirement of `mine` is in the condition of its alert once. */
    ghost predicate ConditionsOk(mine: set<VariableRequirement>, open: seq<Cnf>)
      requires |conditions| == |open|
      reads conditions, set i | 0 <= i < |conditions| :: conditions[i].variableRequirements
    {
      forall i | 0 <= i < |conditions| :: ConditionOk(conditions[i], OfAlert(mine, i), open[i])
    }

    /** ... and in the list of its variable once. */
    ghost predicate ListsOk(mine: set<VariableRequirement>)
      reads temperatures, pressures, humidities, lightIntensities
      reads temperatures.nodes, pressures.nodes, humidities.nodes, lightIntensities.nodes
    {
      forall v: Variable :: ListOk(List(v), OfVariable(mine, v))
    }

    /** The nodes of all lists. */
    ghost function Nodes(): set<object>
      reads temperatures, pressures, humidities, lightIntensities
    {
      temperatures.NodeSet() + pressures.NodeSet() + humidities.NodeSet() + lightIntensities.NodeSet()
    }

    /** All lists, in the order in which they are swept. */
    ghost function AllContents(): seq<VariableRequirement>
      reads temperatures, pressures, humidities, lightIntensities
    {
      List(Temperature).Contents() + List(Pressure).Contents() + List(Humidity).Contents()
      + List(LightIntensity).Contents()
    }

    ghost function Caches(): map<VariableRequirement, Cache>
      reads this, live
    {
      map r | r in live :: r.CacheOf()
    }

    ghost predicate Valid()
      reads this, Repr
      ensures Valid() ==> Shape() && Nodes() <= Repr
    {
      Shape() && requirementPool.live == live && Nodes() <= Repr && ConditionsOk(live, groups) && ListsOk(live)
    }

    constructor (numAlerts: nat, room: nat, nodePool: Pool, requirementPool: Pool)
      requires numAlerts <= TWO_TO_THE_8 && room >= 1 && numAlerts * room <= NO_LIMIT
      requires nodePool != requirementPool && requirementPool.live == {}
      ensures Valid() && fresh(Repr - {requirementPool})
      ensures this.numAlerts == numAlerts && this.room == room
      ensures this.nodePool == nodePool && this.requirementPool == requirementPool
      ensures live == {} && groups == Repeat([[]], numAlerts) && Nodes() == {}
      ensures current.Valid() && current.values == map[]
    {
      hide RequirementStore.Valid, Empty, LinkedList.Valid, AlertCondition.Valid;
      this.numAlerts, this.room, this.nodePool, this.requirementPool := numAlerts, room, nodePool, requirementPool;
      current := new CurrentValues();
      temperatures := new LinkedList(nodePool);
      pressures := new LinkedList(nodePool);
      humidities := new LinkedList(nodePool);
      lightIntensities := new LinkedList(nodePool);
      var made, parts := CreateConditions(numAlerts, room);
      conditions := made;
      live := {};
      groups := Repeat([[]], numAlerts);
      new;
      parts := parts + {this, current, temperatures, pressures, humidities, lightIntensities};
      assert fresh(parts);
      Repr := parts + {requirementPool};
      Initially();
    }

    lemma Initially()
      requires Shape() && live == {} && groups == Repeat([[]], numAlerts) && requirementPool.live == {}
      requires forall i | 0 <= i < numAlerts :: Empty(conditions[i], room)
      requires forall v: Variable :: List(v).nodes == [] && List(v).head == null
      ensures Valid() && Nodes() == {}
    {
      forall i | 0 <= i < numAlerts ensures ConditionOk(conditions[i], OfAlert(live, i), groups[i]) {
        assert Empty(conditions[i], room);
      }
      assert List(Temperature) == temperatures && List(Pressure) == pressures
          && List(Humidity) == humidities && List(LightIntensity) == lightIntensities;
    }

    /** The list of the variable gains the requirement; the others stay. */
    method AddToOwnList(id: byte, comparison: Comparison, ghost mine: set<VariableRequirement>)
      returns (requirement: VariableRequirement, ghost node: Node<VariableRequirement>)
      requires forall u: Variable :: ListOk(List(u), OfVariable(mine, u))
      requires List(comparison.variable).NodeSet() <= nodePool.live
      requires List(comparison.variable).pool == nodePool != requirementPool
      requires forall u: Variable | u != comparison.variable :: List(u) != List(comparison.variable)
      requires |nodePool.live| < nodePool.capacity && |requirementPool.live| < requirementPool.capacity
      modifies List(comparison.variable), nodePool, requirementPool
      ensures forall u: Variable | u != comparison.variable :: ListOk(List(u), OfVariable(mine, u))
      ensures ListOk(List(comparison.variable), OfVariable(mine, comparison.variable) + {requirement})
      ensures OthersNodes(comparison.variable) == old(OthersNodes(comparison.variable))
      ensures List(comparison.variable).NodeSet() == old(List(comparison.variable).NodeSet()) + {node}
      ensures fresh(node) && node !in old(nodePool.live) && nodePool.live == old(nodePool.live) + {node}
      ensures fresh(requirement) && requirementPool.live == old(requirementPool.live) + {requirement}
      ensures requirement.alertId == id && requirement.comparison == comparison && requirement.CacheOf() == UNEVALUATED
    {
      hide ListOk, OfVariable, LinkedList.NodeSet, LinkedList.Valid, Distinct, ToSet, LinkedList.Contents;
      hide RequirementStore.OthersNodes;
      var v := comparison.variable;
      requirement, node := CreateRequirement(id, comparison, List(v), requirementPool, OfVariable(mine, v));
      forall u: Variable | u != v ensures ListOk(List(u), OfVariable(mine, u)) {
        assert old(ListOk(List(u), OfVariable(mine, u)));
      }
    }

    method AddToLists(id: byte, comparison: Comparison, ghost mine: set<VariableRequirement>)
      returns (requirement: VariableRequirement, ghost node: Node<VariableRequirement>)
      requires ListsOk(mine) && Nodes() <= nodePool.live
      requires forall v: Variable :: List(v).pool == nodePool != requirementPool
      requires forall u: Variable | u != comparison.variable :: List(u) != List(comparison.variable)
      requires |nodePool.live| < nodePool.capacity && |requirementPool.live| < requirementPool.capacity
      modifies List(comparison.variable), nodePool, requirementPool
      ensures ListsOk(mine + {requirement}) && Nodes() == old(Nodes()) + {node}
      ensures fresh(node) && node !in old(nodePool.live) && nodePool.live == old(nodePool.live) + {node}
      ensures fresh(requirement) && requirementPool.live == old(requirementPool.live) + {requirement}
      ensures requirement.alertId == id && requirement.comparison == comparison && requirement.CacheOf() == UNEVALUATED
    {
      assert forall u: Variable :: ListOk(List(u), OfVariable(mine, u));
      hide ListOk, OfVariable, LinkedList.NodeSet, RequirementStore.Nodes, RequirementStore.OthersNodes;
      hide RequirementStore.ListsOk, RequirementStore.List;
      var v := comparison.variable;
      NodesSplit(v);
      ghost var others, own := OthersNodes(v), List(v).NodeSet();
      requirement, node := AddToOwnList(id, comparison, mine);
      NodesSplit(v);
      AddOne(own, others, node);
      ListsGained(mine, requirement);
    }

    lemma ListsGained(mine: set<VariableRequirement>, r: VariableRequirement)
      requires forall u: Variable | u != r.comparison.variable :: ListOk(List(u), OfVariable(mine, u))
      requires ListOk(List(r.comparison.variable), OfVariable(mine, r.comparison.variable) + {r})
      ensures ListsOk(mine + {r})
    {
      hide ListOk, OfVariable;
      OneMoreOfVariable(mine, r);
    }

    method AddToConditions(requirement: VariableRequirement, isLast: bool,
                           ghost mine: set<VariableRequirement>, ghost open: seq<Cnf>, ghost extended: Cnf)
      requires |conditions| == |open| && ConditionsOk(mine, open)
      requires var id := requirement.alertId;
               id < |open| && open[id] != [] && Size(open[id]) < conditions[id].maxRequirements
      requires extended == Extended(open[requirement.alertId], requirement.comparison, isLast)
      requires requirement !in mine && Distinct(conditions)
      requires forall i, j | 0 <= i < j < |conditions| ::
                 conditions[i].variableRequirements != conditions[j].variableRequirements
      modifies conditions[requirement.alertId], conditions[requirement.alertId].variableRequirements
      ensures ConditionsOk(mine + {requirement}, open[requirement.alertId := extended])
    {
      hide ConditionOk, OfAlert, Extended, Size;
      var id := requirement.alertId;
      OnlyAt(conditions, id);
      NotOfAlert(mine, requirement, id);
      assert ConditionOk(conditions[id], OfAlert(mine, id), open[id]);
      AddToCondition(conditions[id], requirement, isLast, OfAlert(mine, id), open[id]);
      forall i | 0 <= i < |conditions|
        ensures ConditionOk(conditions[i], OfAlert(mine + {requirement}, i), open[id := extended][i])
      {
        assert old(ConditionOk(conditions[i], OfAlert(mine, i), open[i]));
        OneMoreOfAlert(mine, requirement, i);
      }
    }

    /** Keeps the ghost fields in step with an added requirement. */
    ghost method RecordAdded(r: VariableRequirement, node: object, open: Cnf)
      requires Shape() && r.alertId < numAlerts && requirementPool.live == live + {r}
      requires nodePool !in {r, node} && Nodes() <= Repr + {node}
      requires ConditionsOk(live + {r}, groups[r.alertId := open]) && ListsOk(live + {r})
      modifies this
      ensures Valid() && Repr == old(Repr) + {r, node}
      ensures live == old(live) + {r} && groups == old(groups)[r.alertId := open]
    {
      hide RequirementStore.ConditionsOk, RequirementStore.ListsOk, RequirementStore.Nodes;
      live := live + {r};
      groups := groups[r.alertId := open];
      Repr := Repr + {r, node};
    }

    lemma Apart(id: nat, v: Variable)
      requires Shape() && id < numAlerts
      ensures conditions[id].maxRequirements == room && Distinct(conditions)
      ensures forall i, j | 0 <= i < j < numAlerts ::
                conditions[i].variableRequirements != conditions[j].variableRequirements
      ensures conditions[id] in Repr && conditions[id].variableRequirements in Repr && List(v) in Repr
      ensures forall u: Variable | u != v :: List(u) != List(v)
      ensures forall u: Variable :: List(u).pool == nodePool
      ensures nodePool != requirementPool && {this, requirementPool} <= Repr && nodePool !in Repr
      ensures live <= Repr && forall r | r in live :: r.alertId < numAlerts
    {
    }

    /** One turn of the loop, as far as it shows on the heap. */
    method AddToParts(id: byte, comparison: Comparison, isLast: bool)
      returns (requirement: VariableRequirement, ghost node: object)
      requires Valid() && id < numAlerts && groups[id] != [] && Size(groups[id]) < room
      requires Nodes() <= nodePool.live
      requires |nodePool.live| < nodePool.capacity && |live| < requirementPool.capacity
      modifies conditions[id], conditions[id].variableRequirements
      modifies List(comparison.variable), nodePool, requirementPool
      ensures fresh(requirement) && requirement.alertId == id && requirement.comparison == comparison
      ensures requirement.CacheOf() == UNEVALUATED && requirementPool.live == live + {requirement}
      ensures ConditionsOk(live + {requirement}, groups[id := Extended(groups[id], comparison, isLast)])
      ensures ListsOk(live + {requirement}) && Nodes() == old(Nodes()) + {node}
      ensures fresh(node) && node !in old(nodePool.live) && nodePool.live == old(nodePool.live) + {node}
    {
      hide RequirementStore.ConditionsOk, RequirementStore.ListsOk, RequirementStore.Nodes, Extended, Size;
      hide RequirementStore.Shape, Distinct;
      Apart(id, comparison.variable);
      requirement, node := AddToLists(id, comparison, live);
      assert ConditionsOk(live, groups);
      ghost var nodes := Nodes();
      AddToConditions(requirement, isLast, live, groups, Extended(groups[id], comparison, isLast));
      assert Nodes() == nodes;
    }

    /** One turn of the loop that builds a condition. */
    method AddRequirement(id: byte, comparison: Comparison, isLast: bool)
      returns (ghost requirement: VariableRequirement, ghost node: object)
      requires Valid() && id < numAlerts && groups[id] != [] && Size(groups[id]) < room
      requires Nodes() <= nodePool.live
      requires |nodePool.live| < nodePool.capacity && |live| < requirementPool.capacity
      modifies this, conditions[id], conditions[id].variableRequirements
      modifies List(comparison.variable), nodePool, requirementPool
      ensures Valid() && fresh(Repr - old(Repr))
      ensures fresh(requirement) && requirement.alertId == id && requirement.comparison == comparison
      ensures requirement.CacheOf() == UNEVALUATED && live == old(live) + {requirement}
      ensures groups == old(groups)[id := Extended(old(groups)[id], comparison, isLast)]
      ensures fresh(node) && node !in old(nodePool.live) && nodePool.live == old(nodePool.live) + {node}
      ensures Nodes() == old(Nodes()) + {node}
    {
      hide RequirementStore.Nodes, Extended, Size, RequirementStore.Shape, RequirementStore.ConditionsOk;
      hide RequirementStore.ListsOk;
      Apart(id, comparison.variable);
      assert Nodes() <= Repr;
      var r, n := AddToParts(id, comparison, isLast);
      requirement, node := r, n;
      ghost var nodes := Nodes();
      RecordAdded(r, n, Extended(groups[id], comparison, isLast));
      assert Nodes() == nodes;
    }

    /** A node is in the list of the variable of its requirement only. */
    lemma NodesApart(v: Variable, mine: set<VariableRequirement>)
      requires ListsOk(mine)
      ensures forall u: Variable | u != v :: forall o: object | o in List(u).nodes :: o !in List(v).nodes
    {
    }

    method RemoveFromList(v: Variable, id: byte, ghost mine: set<VariableRequirement>)
      requires ListsOk(mine) && Nodes() <= nodePool.live && |mine| <= NO_LIMIT
      requires forall u: Variable :: List(u).pool == nodePool
      requires forall u: Variable | u != v :: List(u) != List(v)
      modifies List(v), List(v).nodes, nodePool
      ensures ListsOk(mine - OfAlert(OfVariable(mine, v), id))
      ensures Freed(old(Nodes()), Nodes(), old(nodePool.live), nodePool.live)
    {
      hide OfVariable, OfAlert, LinkedList.Valid, Distinct, LinkedList.NodeSet, RequirementStore.Nodes;
      hide RequirementStore.OthersNodes, ToSet;
      NodesApart(v, mine);
      OthersApart(v, mine);
      NodesSplit(v);
      ghost var others := OthersNodes(v);
      OfVariableIsPart(mine, v);
      assert ListOk(List(v), OfVariable(mine, v));
      RemoveAllForAlert(List(v), id, OfVariable(mine, v));
      assert OthersNodes(v) == others;
      NodesSplit(v);
      forall u: Variable ensures ListOk(List(u), OfVariable(mine - OfAlert(OfVariable(mine, v), id), u)) {
        LessOfVariable(mine, v, id, u);
        if u != v {
          assert old(ListOk(List(u), OfVariable(mine, u)));
          forall i | 0 <= i < |List(u).nodes| ensures List(u).nodes[i].next == old(List(u).nodes[i].next) {
            assert List(u).nodes[i] in old(List(u).nodes);
          }
          List(u).Untouched();
        }
      }
    }

    ghost function OthersNodes(v: Variable): set<object>
      reads set u: Variable | u != v :: List(u)
    {
      match v
      case Temperature => List(Pressure).NodeSet() + List(Humidity).NodeSet() + List(LightIntensity).NodeSet()
      case Pressure => List(Temperature).NodeSet() + List(Humidity).NodeSet() + List(LightIntensity).NodeSet()
      case Humidity => List(Temperature).NodeSet() + List(Pressure).NodeSet() + List(LightIntensity).NodeSet()
      case LightIntensity => List(Temperature).NodeSet() + List(Pressure).NodeSet() + List(Humidity).NodeSet()
    }

    lemma NodesSplit(v: Variable)
      ensures Nodes() == List(v).NodeSet() + OthersNodes(v)
    {
    }

    lemma OthersApart(v: Variable, mine: set<VariableRequirement>)
      requires ListsOk(mine)
      ensures List(v).NodeSet() !! OthersNodes(v)
    {
    }

    lemma PartOfNodes(v: Variable)
      ensures List(v) in {temperatures, pressures, humidities, lightIntensities}
      ensures forall o: object | o in List(v).nodes :: o in Nodes()
    {
    }

    /** The four calls of the remover, one for each variable. */
    method RemoveFromLists(id: byte, ghost mine: set<VariableRequirement>)
      requires ListsOk(mine) && Nodes() <= nodePool.live && |mine| <= NO_LIMIT
      requires forall u: Variable :: List(u).pool == nodePool
      requires forall u, v: Variable | u != v :: List(u) != List(v)
      modifies temperatures, pressures, humidities, lightIntensities, Nodes(), nodePool
      ensures ListsOk(mine - OfAlert(mine, id))
      ensures Freed(old(Nodes()), Nodes(), old(nodePool.live), nodePool.live)
    {
      hide RequirementStore.ListsOk, RequirementStore.Nodes, OfAlert, OfVariable, Freed;
      AllVariablesDone(mine, id);
      NoneFreed(Nodes(), nodePool.live);
      ghost var nodes, pool := Nodes(), nodePool.live;
      PartOfNodes(Temperature);
      RemoveFromList(Temperature, id, mine);
      ghost var m1 := mine - OfAlert(OfVariable(mine, Temperature), id);
      FreedOn(nodes, nodes, Nodes(), pool, pool, nodePool.live);
      PartOfNodes(Pressure);
      ghost var n1, p1 := Nodes(), nodePool.live;
      RemoveFromList(Pressure, id, m1);
      ghost var m2 := m1 - OfAlert(OfVariable(m1, Pressure), id);
      FreedOn(nodes, n1, Nodes(), pool, p1, nodePool.live);
      PartOfNodes(Humidity);
      ghost var n2, p2 := Nodes(), nodePool.live;
      RemoveFromList(Humidity, id, m2);
      ghost var m3 := m2 - OfAlert(OfVariable(m2, Humidity), id);
      FreedOn(nodes, n2, Nodes(), pool, p2, nodePool.live);
      PartOfNodes(LightIntensity);
      ghost var n3, p3 := Nodes(), nodePool.live;
      RemoveFromList(LightIntensity, id, m3);
      FreedOn(nodes, n3, Nodes(), pool, p3, nodePool.live);
    }

    lemma NodesAreNodes()
      ensures forall o: object | o in Nodes() :: o is Node<VariableRequirement>
    {
    }

    method ClearCondition(id: byte, ghost mine: set<VariableRequirement>, ghost open: seq<Cnf>)
      requires |conditions| == |open| && id < |open| && ConditionsOk(mine, open)
      requires requirementPool.live == mine && Distinct(conditions)
      modifies conditions[id], requirementPool
      ensures ConditionsOk(mine - OfAlert(mine, id), open[id := [[]]])
      ensures requirementPool.live == mine - OfAlert(mine, id)
    {
      hide OfAlert, AlertCondition.Valid, AlertCondition.NoRepeats, AlertCondition.Groups, AlertCondition.Requirements;
      OnlyAt(conditions, id);
      assert ConditionOk(conditions[id], OfAlert(mine, id), open[id]);
      LessOfAlert(mine, id);
      conditions[id].DestroyRequirements(requirementPool);
      conditions[id].Reset();
      forall i | 0 <= i < |conditions|
        ensures ConditionOk(conditions[i], OfAlert(mine - OfAlert(mine, id), i), open[id := [[]]][i])
      {
        assert old(ConditionOk(conditions[i], OfAlert(mine, i), open[i]));
        if i == id { assert CnfOf([[]]) == [[]]; }
      }
    }

    /** What the remover does to the requirements of an alert: every list drops
        them, and every one of them is destroyed once. */
    method RemoveAlert(id: byte)
      requires Valid() && id < numAlerts && Nodes() <= nodePool.live && |live| <= NO_LIMIT
      modifies this, conditions[id], requirementPool
      modifies temperatures, pressures, humidities, lightIntensities, Nodes(), nodePool
      ensures Valid() && Repr == old(Repr)
      ensures live == old(live) - OfAlert(old(live), id) && groups == old(groups)[id := [[]]]
      ensures Freed(old(Nodes()), Nodes(), old(nodePool.live), nodePool.live)
    {
      hide RequirementStore.ConditionsOk, RequirementStore.ListsOk, RequirementStore.Nodes, OfAlert, Freed;
      NodesAreNodes();
      RemoveFromLists(id, live);
      ghost var nodes := Nodes();
      ClearCondition(id, live, groups);
      assert Nodes() == nodes;
      RecordRemoved(id, OfAlert(live, id));
      assert Nodes() == nodes;
    }

    ghost method RecordRemoved(id: nat, gone: set<VariableRequirement>)
      requires Shape() && id < numAlerts && requirementPool.live == live - gone && Nodes() <= Repr
      requires ConditionsOk(live - gone, groups[id := [[]]]) && ListsOk(live - gone)
      modifies this
      ensures Valid() && Repr == old(Repr)
      ensures live == old(live) - gone && groups == old(groups)[id := [[]]]
    {
      hide RequirementStore.ConditionsOk, RequirementStore.ListsOk, RequirementStore.Nodes;
      live := live - gone;
      groups := groups[id := [[]]];
    }

    lemma RoomForCondition(i: nat)
      requires Valid() && i < numAlerts
      ensures |OfAlert(live, i)| == Size(groups[i]) <= room
    {
    }

    lemma ListSize(v: Variable)
      requires ListsOk(live)
      ensures |List(v).NodeSet()| == |OfVariable(live, v)|
    {
      hide OfVariable;
      var list := List(v);
      assert ListOk(list, OfVariable(live, v));
      ToSetSize(list.Contents());
      ToSetSize(list.nodes);
      assert list.NodeSet() == (set n | n in list.nodes);
      ObjectsOf(list.nodes);
    }

    /** Every requirement takes one node, and the pools have room for all the
        requirements that fit the conditions. */
    lemma LiveBound()
      requires Valid()
      ensures |live| <= numAlerts * room && |Nodes()| == |live|
    {
      forall i | 0 <= i < numAlerts ensures |OfAlert(live, i)| <= room {
        RoomForCondition(i);
      }
      LiveBelow(live, numAlerts, room, -1);
      assert live == (set r | r in live && r.alertId < numAlerts);
      NodesCount();
    }

    /** There is room for the requirements of an alert that has none yet. */
    lemma RoomForAlert(id: nat)
      requires Valid() && id < numAlerts && groups[id] == [[]]
      ensures |live| + room <= numAlerts * room && OfAlert(live, id) == {}
    {
      forall i | 0 <= i < numAlerts ensures |OfAlert(live, i)| <= if i == id then 0 else room {
        RoomForCondition(i);
      }
      assert Size([[]]) == 0;
      RoomForCondition(id);
      LiveBelow(live, numAlerts, room, id);
      assert live == (set r | r in live && r.alertId < numAlerts);
    }

    lemma ListsDisjoint()
      requires ListsOk(live)
      ensures temperatures.NodeSet() !! pressures.NodeSet() + humidities.NodeSet() + lightIntensities.NodeSet()
      ensures pressures.NodeSet() !! humidities.NodeSet() + lightIntensities.NodeSet()
      ensures humidities.NodeSet() !! lightIntensities.NodeSet()
    {
      hide RequirementStore.ListsOk, LinkedList.NodeSet;
      OthersApart(Temperature, live);
      OthersApart(Pressure, live);
      OthersApart(Humidity, live);
    }

    lemma NodesCount()
      requires ListsOk(live)
      ensures |Nodes()| == |live|
    {
      hide LinkedList.NodeSet, OfVariable, RequirementStore.ListsOk;
      ListSize(Temperature);
      ListSize(Pressure);
      ListSize(Humidity);
      ListSize(LightIntensity);
      ListsDisjoint();
      FourSets(temperatures.NodeSet(), pressures.NodeSet(), humidities.NodeSet(), lightIntensities.NodeSet());
      VariablesCount(live);
    }

    /** The evaluation of one requirement and the question whether its result
        changed. */
    method EvaluateRequirement(r: VariableRequirement) returns (changed: bool)
      requires Valid() && r in live && r.comparison.variable in current.values
      modifies r
      ensures Valid() && r.Settled(current.values)
      ensures changed <==> r.CacheOf() != old(r.CacheOf())
    {
      hide RequirementStore.ConditionsOk, RequirementStore.ListsOk, RequirementStore.Nodes;
      var _ := r.Evaluate(current);
      changed := r.IsResultChanged();
    }

    method EvaluateCondition(id: byte, ghost formula: Cnf) returns (result: bool)
      requires Valid() && id < numAlerts && groups[id] == formula + [[]] && formula != []
      requires Ready(current.values)
      modifies OfAlert(live, id)
      ensures Valid() && result == EvalCnf(formula, current.values)
      ensures forall r | r in OfAlert(live, id) :: r.CacheOf() == old(r.CacheOf()) || r.Settled(current.values)
    {
      hide RequirementStore.ConditionsOk, RequirementStore.ListsOk, RequirementStore.Nodes, EvalCnf;
      FormulaOf(id, formula);
      result := conditions[id].Evaluate(current);
    }

    lemma FormulaOf(id: byte, formula: Cnf)
      requires Shape() && id < numAlerts && ConditionsOk(live, groups) && groups[id] == formula + [[]] && formula != []
      ensures conditions[id].Valid() && conditions[id].Requirements() == OfAlert(live, id)
      ensures conditions[id].numRequirements > 0 && conditions[id].Formula() == formula
    {
      hide AlertCondition.Valid, AlertCondition.Groups, AlertCondition.Formula;
      assert ConditionOk(conditions[id], OfAlert(live, id), groups[id]);
      conditions[id].FormulaIsClosed();
    }

    /** The comparisons of a condition are those of its requirements. */
    lemma ComparisonsLive(id: nat, formula: Cnf)
      requires Valid() && id < numAlerts && groups[id] == formula + [[]]
      ensures forall g, c | g in formula && c in g :: exists r :: r in OfAlert(live, id) && r.comparison == c
      ensures formula != [] ==> OfAlert(live, id) != {}
    {
      hide AlertCondition.Valid, OfAlert;
      var condition := conditions[id];
      assert ConditionOk(condition, OfAlert(live, id), groups[id]);
      SplitNone();
      forall g, c | g in formula && c in g ensures exists r :: r in OfAlert(live, id) && r.comparison == c {
        var i :| 0 <= i < |formula| && formula[i] == g;
        assert groups[id][i] == g && CnfOf(condition.Groups())[i] == g;
        assert i < |Split(condition.Items())| && CnfOf(Split(condition.Items()))[i] == g;
        ComparisonsIn(condition.Items(), i, c);
      }
      if formula != [] {
        FormulaOf(id, formula);
      }
    }

    /** What every new sample does first; the handler needs to know whether all
        variables had been sampled before and whether they are now. */
    method TakeSample(v: Variable, x: int) returns (readyBefore: bool, readyAfter: bool)
      requires Valid() && current.Valid()
      modifies current
      ensures Valid() && current.Valid()
      ensures current.values == old(current.values)[v := x]
      ensures current.valueChanged ==
              old(current.valueChanged)[v := v !in old(current.values) || old(current.values)[v] != x]
      ensures readyBefore <==> Ready(old(current.values))
      ensures readyAfter <==> Ready(current.values)
    {
      hide RequirementStore.ConditionsOk, RequirementStore.ListsOk, RequirementStore.Nodes;
      readyBefore := current.IsReady();
      current.NotifyReceivedSample(v);
      readyAfter := current.IsReady();
      ghost var received := current.received;
      assert readyAfter <==> forall u: Variable :: u in received;
      current.Set(v, x);
      assert received == current.received;
      forall u: Variable ensures u in received <==> u in current.values {
      }
    }

    /** Walking a list meets the requirements of its variable. */
    lemma ListNode(v: Variable, k: nat)
      requires Valid()
      ensures List(v).head == At(List(v).nodes, 0)
      ensures k < |List(v).nodes| ==>
        && List(v).nodes[k].next == At(List(v).nodes, k + 1)
        && List(v).nodes[k].element in OfVariable(live, v)
    {
    }

    /** ... and no others. */
    lemma ListComplete(v: Variable)
      requires Valid()
      ensures forall r | r in OfVariable(live, v) ::
                exists k :: 0 <= k < |List(v).nodes| && List(v).nodes[k].element == r
    {
    }

    /** alert_condition_reset before a condition is built; it is empty already. */
    method ResetAmong(id: byte, ghost mine: set<VariableRequirement>, ghost open: seq<Cnf>)
      requires |conditions| == |open| && id < |open| && ConditionsOk(mine, open)
      requires open[id] == [[]] && Distinct(conditions)
      modifies conditions[id]
      ensures ConditionsOk(mine, open)
    {
      hide ConditionOk, OfAlert, Distinct;
      OnlyAt(conditions, id);
      assert ConditionOk(conditions[id], OfAlert(mine, id), open[id]);
      ResetEmpty(conditions[id], OfAlert(mine, id));
      forall i | 0 <= i < |conditions| && i != id ensures ConditionOk(conditions[i], OfAlert(mine, i), open[i]) {
        assert old(ConditionOk(conditions[i], OfAlert(mine, i), open[i]));
      }
    }

    method ResetCondition(id: byte)
      requires Valid() && id < numAlerts && groups[id] == [[]]
      modifies conditions[id]
      ensures Valid()
    {
      hide RequirementStore.ListsOk, RequirementStore.ConditionsOk, RequirementStore.Nodes, Distinct;
      ResetAmong(id, live, groups);
    }

    /** A condition of alert `id` has been built up to `open`, starting from
        nothing with the requirements, nodes and groups given. */
    ghost predicate Building(id: byte, live0: set<VariableRequirement>, nodes0: set<object>, pool0: set<object>,
                             groups0: seq<Cnf>, open: Cnf, added: set<object>)
      reads this, Repr, nodePool
      ensures Building(id, live0, nodes0, pool0, groups0, open, added) ==> Valid()
    {
      && Valid() && id < |groups0| && groups == groups0[id := open] && open != []
      && live0 <= live && |live| <= |live0| + Size(open)
      && (forall r | r in live && r !in live0 :: r.alertId == id && r.CacheOf() == UNEVALUATED)
      && nodePool.live == pool0 + added && Nodes() == nodes0 + added
      && |nodePool.live| <= |pool0| + Size(open) && Nodes() <= nodePool.live
    }

    method BuildOne(id: byte, x: FlatRequirement, ghost live0: set<VariableRequirement>, ghost nodes0: set<object>,
                    ghost pool0: set<object>, ghost groups0: seq<Cnf>, ghost open: Cnf, ghost added: set<object>)
      returns (ghost added': set<object>, ghost open': Cnf)
      requires Building(id, live0, nodes0, pool0, groups0, open, added) && id < numAlerts && Size(open) < room
      requires ValidOperator(x.requirement.operator)
      requires |pool0| + Size(open) < nodePool.capacity && |live0| + Size(open) < requirementPool.capacity
      modifies this, conditions[id], conditions[id].variableRequirements
      modifies temperatures, pressures, humidities, lightIntensities, nodePool, requirementPool
      ensures open != [] && open' == Extended(open, ComparisonOf(x.requirement), x.isLastInOredRequirement)
      ensures Building(id, live0, nodes0, pool0, groups0, open', added') && Size(open') == Size(open) + 1
      ensures fresh(Repr - old(Repr)) && fresh(live - old(live)) && fresh(added' - added)
    {
      hide RequirementStore.Valid, RequirementStore.Nodes, RequirementStore.Building, Extended, Size;
      var comparison := ComparisonOf(x.requirement);
      DoneBuilding(id, live0, nodes0, pool0, groups0, open, added);
      ExtendedSize(open, comparison, x.isLastInOredRequirement);
      open' := Extended(open, comparison, x.isLastInOredRequirement);
      ghost var live1, nodes1, pool1 := live, Nodes(), nodePool.live;
      ghost var r, node := AddRequirement(id, comparison, x.isLastInOredRequirement);
      added' := added + {node};
      OneMore(live1, r);
      OneMore(pool1, node);
      JoinOne(pool0, added, node);
      JoinOne(nodes0, added, node);
      IsBuilding(id, live0, nodes0, pool0, groups0, open', added');
    }

    /** The loop that populates a condition and the lists. */
    method BuildAll(id: byte, requirements: seq<FlatRequirement>, ghost live0: set<VariableRequirement>,
                    ghost nodes0: set<object>, ghost pool0: set<object>, ghost groups0: seq<Cnf>)
      returns (ghost added: set<object>)
      requires Building(id, live0, nodes0, pool0, groups0, [[]], {}) && id < numAlerts
      requires FlatOperatorsKnown(requirements) && |requirements| <= room
      requires |pool0| + |requirements| <= nodePool.capacity && |live0| + |requirements| <= requirementPool.capacity
      modifies this, conditions[id], conditions[id].variableRequirements
      modifies temperatures, pressures, humidities, lightIntensities, nodePool, requirementPool
      ensures Building(id, live0, nodes0, pool0, groups0, Built(requirements), added)
      ensures fresh(Repr - old(Repr)) && fresh(live - old(live)) && fresh(added)
    {
      hide Built, RequirementStore.Building, RequirementStore.Valid, RequirementStore.Nodes, Extended, Size;
      added := {};
      ghost var open: Cnf := [[]];
      NothingBuilt();
      EmptySize();
      var i := 0;
      while i < |requirements|
        invariant i <= |requirements| && open == Built(requirements[..i]) && Size(open) == i
        invariant Building(id, live0, nodes0, pool0, groups0, open, added)
        invariant fresh(Repr - old(Repr)) && fresh(live - old(live)) && fresh(added)
      {
        BuiltPrefix(requirements, i);
        added, open := BuildOne(id, requirements[i], live0, nodes0, pool0, groups0, open, added);
        i := i + 1;
      }
      assert requirements[..i] == requirements;
    }

    /** Resets the condition of an alert and builds it. */
    method BuildCondition(id: byte, requirements: seq<FlatRequirement>) returns (ghost added: set<object>)
      requires Valid() && id < numAlerts && groups[id] == [[]]
      requires FlatOperatorsKnown(requirements) && |requirements| <= room
      requires Nodes() <= nodePool.live
      requires |nodePool.live| + |requirements| <= nodePool.capacity
      requires |live| + |requirements| <= requirementPool.capacity
      modifies this, conditions[id], conditions[id].variableRequirements
      modifies temperatures, pressures, humidities, lightIntensities, nodePool, requirementPool
      ensures Valid() && groups == old(groups)[id := Built(requirements)]
      ensures old(live) <= live && forall r | r in live && r !in old(live) :: r.CacheOf() == UNEVALUATED
      ensures nodePool.live == old(nodePool.live) + added && Nodes() == old(Nodes()) + added
      ensures fresh(Repr - old(Repr)) && fresh(live - old(live)) && fresh(added)
    {
      hide Built, RequirementStore.Building, RequirementStore.Valid, RequirementStore.Nodes;
      ghost var live0, nodes0, pool0, groups0 := live, Nodes(), nodePool.live, groups;
      ResetCondition(id);
      assert Nodes() == nodes0;
      StartBuilding(id);
      added := BuildAll(id, requirements, live0, nodes0, pool0, groups0);
      DoneBuilding(id, live0, nodes0, pool0, groups0, Built(requirements), added);
    }

    lemma DoneBuilding(id: byte, live0: set<VariableRequirement>, nodes0: set<object>, pool0: set<object>,
                       groups0: seq<Cnf>, open: Cnf, added: set<object>)
      requires Building(id, live0, nodes0, pool0, groups0, open, added)
      ensures Valid() && id < |groups0| && groups == groups0[id := open] && open != []
      ensures live0 <= live && |live| <= |live0| + Size(open)
      ensures forall r | r in live && r !in live0 :: r.alertId == id && r.CacheOf() == UNEVALUATED
      ensures nodePool.live == pool0 + added && Nodes() == nodes0 + added
      ensures |nodePool.live| <= |pool0| + Size(open) && Nodes() <= nodePool.live
    {
    }

    lemma IsBuilding(id: byte, live0: set<VariableRequirement>, nodes0: set<object>, pool0: set<object>,
                     groups0: seq<Cnf>, open: Cnf, added: set<object>)
      requires Valid() && id < |groups0| && groups == groups0[id := open] && open != []
      requires live0 <= live && |live| <= |live0| + Size(open)
      requires forall r | r in live && r !in live0 :: r.alertId == id && r.CacheOf() == UNEVALUATED
      requires nodePool.live == pool0 + added && Nodes() == nodes0 + added
      requires |nodePool.live| <= |pool0| + Size(open) && Nodes() <= nodePool.live
      ensures Building(id, live0, nodes0, pool0, groups0, open, added)
    {
    }

    lemma StartBuilding(id: byte)
      requires Valid() && id < numAlerts && groups[id] == [[]] && Nodes() <= nodePool.live
      ensures Building(id, live, Nodes(), nodePool.live, groups, [[]], {}) && Size([[]]) == 0
    {
    }
  }

  lemma OneMore<T>(s: set<T>, x: T)
    ensures |s + {x}| <= |s| + 1
  {
  }

  lemma AddOne<T>(a: set<T>, b: set<T>, x: T)
    ensures (a + {x}) + b == (a + b) + {x}
  {
  }

  lemma JoinOne<T>(a: set<T>, b: set<T>, x: T)
    ensures (a + b) + {x} == a + (b + {x})
  {
  }

  lemma VariablesCount(live: set<VariableRequirement>)
    ensures |live| == |OfVariable(live, Temperature)| + |OfVariable(live, Pressure)|
                    + |OfVariable(live, Humidity)| + |OfVariable(live, LightIntensity)|
  {
    var t, p, h, l := Temperature, Pressure, Humidity, LightIntensity;
    assert live == OfVariable(live, t) + OfVariable(live, p) + OfVariable(live, h) + OfVariable(live, l);
    assert OfVariable(live, t) !! OfVariable(live, p) && OfVariable(live, t) !! OfVariable(live, h)
        && OfVariable(live, t) !! OfVariable(live, l) && OfVariable(live, p) !! OfVariable(live, h)
        && OfVariable(live, p) !! OfVariable(live, l) && OfVariable(live, h) !! OfVariable(live, l);
    hide OfVariable;
    FourSets(OfVariable(live, t), OfVariable(live, p), OfVariable(live, h), OfVariable(live, l));
  }

  lemma OneAlertMore(k: nat, room: nat)
    ensures k * room == (k - 1) * room + room
  {
  }

  /** Alerts with at most `room` requirements each; alert `gap` has none. */
  lemma {:induction false} LiveBelow(live: set<VariableRequirement>, k: nat, room: nat, gap: int)
    requires forall i | 0 <= i < k :: |OfAlert(live, i)| <= if i == gap then 0 else room
    ensures |set r | r in live && r.alertId < k| <= k * room - if 0 <= gap < k then room else 0
  {
    if k == 0 {
      assert (set r | r in live && r.alertId < 0) == {};
    } else {
      LiveBelow(live, k - 1, room, gap);
      var below := set r | r in live && r.alertId < k - 1;
      assert (set r | r in live && r.alertId < k) == below + OfAlert(live, k - 1);
      OneAlertMore(k, room);
    }
  }

  lemma ObjectsOf(nodes: seq<Node<VariableRequirement>>)
    ensures |set o: object | o in nodes| == |ToSet(nodes)|
  {
    assert (set o: object | o in nodes) == ToSet(nodes);
  }

  lemma FourSets<T>(a: set<T>, b: set<T>, c: set<T>, d: set<T>)
    requires a !! (b + c + d) && b !! (c + d) && c !! d
    ensures |a + b + c + d| == |a| + |b| + |c| + |d|
  {
  }

  lemma LessOfAlert(live: set<VariableRequirement>, id: int)
    ensures OfAlert(live, id) <= live
    ensures forall i: int :: OfAlert(live - OfAlert(live, id), i) == if i == id then {} else OfAlert(live, i)
  {
  }

  lemma AllVariablesDone(live: set<VariableRequirement>, id: int)
    ensures var m1 := live - OfAlert(OfVariable(live, Temperature), id);
            var m2 := m1 - OfAlert(OfVariable(m1, Pressure), id);
            var m3 := m2 - OfAlert(OfVariable(m2, Humidity), id);
            && |m1| <= |live| && |m2| <= |live| && |m3| <= |live|
            && m3 - OfAlert(OfVariable(m3, LightIntensity), id) == live - OfAlert(live, id)
  {
  }

  lemma OfVariableIsPart(live: set<VariableRequirement>, v: Variable)
    ensures |OfVariable(live, v)| <= |live|
  {
    SubsetSize(OfVariable(live, v), live);
  }

  lemma {:induction false} SubsetSize<T>(a: set<T>, b: set<T>)
    requires a <= b
    ensures |a| <= |b|
  {
    assert |b| == |a| + |b - a| by { assert b == a + (b - a); }
  }

  lemma LessOfVariable(live: set<VariableRequirement>, v: Variable, id: int, u: Variable)
    ensures OfVariable(live - OfAlert(OfVariable(live, v), id), u) ==
            if u == v then OfVariable(live, v) - OfAlert(OfVariable(live, v), id) else OfVariable(live, u)
  {
  }

  lemma BuiltPrefix(requirements: seq<FlatRequirement>, i: nat)
    requires i < |requirements| && FlatOperatorsKnown(requirements)
    ensures FlatOperatorsKnown(requirements[..i]) && FlatOperatorsKnown(requirements[..i + 1])
    ensures var x := requirements[i];
            Built(requirements[..i + 1]) ==
            Extended(Built(requirements[..i]), ComparisonOf(x.requirement), x.isLastInOredRequirement)
  {
    hide Built;
    assert requirements[..i + 1] == requirements[..i] + [requirements[i]];
    BuiltOne(requirements[..i], requirements[i]);
  }

  lemma NotOfAlert(live: set<VariableRequirement>, r: VariableRequirement, id: int)
    requires r !in live
    ensures r !in OfAlert(live, id)
  {
  }
}
