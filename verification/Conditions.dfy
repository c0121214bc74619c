/** Alert conditions (src/app/alert_condition.c): an array of requirements in
    which a null stands for a logical AND. */
module Conditions {
  import opened Domain
  import opened Pools
  import opened Requirements

  /** The groups of ORed requirements between the nulls of an item array. */
  function Split(items: seq<VariableRequirement?>): (r: seq<seq<VariableRequirement>>)
    ensures r != []
  {
    if items == [] then [[]]
    else
      var front := Split(items[..|items| - 1]);
      var item := items[|items| - 1];
      if item == null then front + [[]] else AddToLast(front, item)
  }

  function AddToLast<T>(groups: seq<seq<T>>, x: T): (r: seq<seq<T>>)
    requires groups != []
    ensures r != []
  {
    groups[..|groups| - 1] + [groups[|groups| - 1] + [x]]
  }

  /** The groups without the open one if nothing was added to it. */
  function Closed<T>(groups: seq<seq<T>>): seq<seq<T>>
    requires groups != []
  {
    if groups[|groups| - 1] == [] then groups[..|groups| - 1] else groups
  }

  /** Beginning a group right after another begin does nothing. */
  function StartNew<T>(groups: seq<seq<T>>): (r: seq<seq<T>>)
    requires groups != []
    ensures r != []
  {
    if groups[|groups| - 1] == [] then groups else groups + [[]]
  }

  function Comparisons(group: seq<VariableRequirement>): (r: seq<Comparison>)
    ensures |r| == |group| && forall i | 0 <= i < |r| :: r[i] == group[i].comparison
  {
    seq(|group|, i requires 0 <= i < |group| => group[i].comparison)
  }

  function CnfOf(groups: seq<seq<VariableRequirement>>): (r: Cnf)
    ensures |r| == |groups| && forall i | 0 <= i < |r| :: r[i] == Comparisons(groups[i])
  {
    seq(|groups|, i requires 0 <= i < |groups| => Comparisons(groups[i]))
  }

  /** All requirements of an item array. */
  ghost function RequirementsIn(items: seq<VariableRequirement?>): set<VariableRequirement> {
    set r: VariableRequirement | r in items
  }

  lemma OneRequirementMore(items: seq<VariableRequirement?>, r: VariableRequirement)
    ensures RequirementsIn(items + [r]) == RequirementsIn(items) + {r}
    ensures |RequirementsIn(items + [r])| <= |RequirementsIn(items)| + 1
    ensures forall i | 0 <= i < |items| && items[i] != null :: items[i] in RequirementsIn(items)
    ensures r in RequirementsIn(items) <==> r in items
  {
  }

  lemma SplitOne(items: seq<VariableRequirement?>, item: VariableRequirement?)
    ensures Split(items + [item]) == if item == null then Split(items) + [[]] else AddToLast(Split(items), item)
  {
  }

  /** A run of requirements goes to the group that is open where it begins. */
  lemma {:induction false} SplitRun(items: seq<VariableRequirement?>, start: nat, stop: nat)
    requires start <= stop <= |items|
    requires forall i | start <= i < stop :: items[i] != null
    ensures (var run: seq<VariableRequirement> := items[start..stop];
             var before := Split(items[..start]);
             Split(items[..stop]) == before[..|before| - 1] + [before[|before| - 1] + run])
    decreases stop
  {
    hide Split;
    var before := Split(items[..start]);
    var run: seq<VariableRequirement> := items[start..stop];
    assert before == before[..|before| - 1] + [before[|before| - 1]];
    if start == stop {
      assert before[|before| - 1] + run == before[|before| - 1];
    } else {
      SplitRun(items, start, stop - 1);
      assert items[..stop] == items[..stop - 1] + [items[stop - 1]];
      SplitOne(items[..stop - 1], items[stop - 1]);
      RunOne(before[|before| - 1], items[start..stop - 1], items[stop - 1], run);
    }
  }

  lemma RunOne<T>(open: seq<T>, shorter: seq<T>, x: T, run: seq<T>)
    requires run == shorter + [x]
    ensures open + run == (open + shorter) + [x]
  {
  }

  /** No two nulls in a row, none at the ends: every group has an element. */
  ghost predicate NoEmptyGroup(groups: seq<seq<VariableRequirement>>) {
    forall i | 0 <= i < |groups| :: groups[i] != []
  }

  /** No requirement was added twice. */
  ghost predicate OnceEach(items: seq<VariableRequirement?>) {
    forall i, j | 0 <= i < j < |items| :: items[i] != null ==> items[i] != items[j]
  }

  lemma OnceEachMore(items: seq<VariableRequirement?>, item: VariableRequirement?)
    requires OnceEach(items) && (item == null || item !in items)
    ensures OnceEach(items + [item])
  {
  }

  class AlertCondition {
    const maxRequirements: nat
    const variableRequirements: array<VariableRequirement?>
    var numRequirements: nat
    var numItemsInReqsArray: nat
    var insertAndBeforeNextRequirement: bool

    ghost predicate Valid()
      reads this, variableRequirements
      ensures Valid() ==> numItemsInReqsArray <= variableRequirements.Length
    {
      && maxRequirements >= 1 && variableRequirements.Length == 2 * maxRequirements - 1
      && numRequirements <= maxRequirements
      && (if numRequirements == 0 then numItemsInReqsArray == 0
          else numRequirements <= numItemsInReqsArray <= 2 * numRequirements - 1)
      && (numRequirements > 0 ==> NoEmptyGroup(Split(Items())))
      && |Requirements()| <= numRequirements
    }

    ghost predicate NoRepeats()
      requires numItemsInReqsArray <= variableRequirements.Length
      reads this, variableRequirements
    {
      OnceEach(Items())
    }

    ghost function Items(): (r: seq<VariableRequirement?>)
      requires numItemsInReqsArray <= variableRequirements.Length
      reads this, variableRequirements
    {
      variableRequirements[..numItemsInReqsArray]
    }

    /** The groups built so far; the last one is still open. */
    ghost function Groups(): (r: seq<seq<VariableRequirement>>)
      requires numItemsInReqsArray <= variableRequirements.Length
      reads this, variableRequirements
      ensures r != []
    {
      if insertAndBeforeNextRequirement && numRequirements > 0 then Split(Items()) + [[]] else Split(Items())
    }

    ghost function Requirements(): set<VariableRequirement>
      requires numItemsInReqsArray <= variableRequirements.Length
      reads this, variableRequirements
    {
      RequirementsIn(Items())
    }

    ghost function Formula(): Cnf
      requires numItemsInReqsArray <= variableRequirements.Length
      reads this, variableRequirements
    {
      CnfOf(Split(Items()))
    }

    constructor (maxRequirements: nat)
      requires maxRequirements >= 1
      ensures Valid() && fresh(variableRequirements) && this.maxRequirements == maxRequirements
      ensures numRequirements == 0 && Groups() == [[]] && Requirements() == {} && NoRepeats()
    {
      this.maxRequirements := maxRequirements;
      variableRequirements := new VariableRequirement?[2 * maxRequirements - 1](_ => null);
      numRequirements, numItemsInReqsArray, insertAndBeforeNextRequirement := 0, 0, false;
    }

    method Reset()
      requires Valid()
      modifies this
      ensures Valid() && numRequirements == 0 && !insertAndBeforeNextRequirement
      ensures Groups() == [[]] && Requirements() == {} && NoRepeats()
    {
      numItemsInReqsArray := 0;
      numRequirements := 0;
      insertAndBeforeNextRequirement := false;
    }

    /** An item beyond the array fires an assert. */
    method AddRequirementToList(item: VariableRequirement?)
      requires numItemsInReqsArray < variableRequirements.Length
      modifies this`numItemsInReqsArray, variableRequirements
      ensures numItemsInReqsArray == old(numItemsInReqsArray) + 1
      ensures Items() == old(Items()) + [item]
    {
      variableRequirements[numItemsInReqsArray] := item;
      numItemsInReqsArray := numItemsInReqsArray + 1;
    }

    /** The null that a begun group was waiting for. */
    method InsertAndIfDue()
      requires Valid() && numRequirements < maxRequirements
      modifies this`numItemsInReqsArray, this`insertAndBeforeNextRequirement, variableRequirements
      ensures !insertAndBeforeNextRequirement && numRequirements <= numItemsInReqsArray <= 2 * numRequirements
      ensures Split(Items()) == old(Groups()) && Requirements() == old(Requirements())
      ensures old(NoRepeats()) ==> NoRepeats()
    {
      hide OnceEach;
      SplitOne(Items(), null);
      if OnceEach(Items()) { OnceEachMore(Items(), null); }
      if insertAndBeforeNextRequirement {
        if numRequirements > 0 {
          AddRequirementToList(null);
        }
        insertAndBeforeNextRequirement := false;
      }
    }

    method AddVariableRequirement(requirement: VariableRequirement)
      requires Valid() && numRequirements < maxRequirements
      modifies this, variableRequirements
      ensures Valid() && !insertAndBeforeNextRequirement
      ensures Groups() == AddToLast(old(Groups()), requirement)
      ensures Requirements() == old(Requirements()) + {requirement}
      ensures numRequirements == old(numRequirements) + 1
      ensures old(NoRepeats()) && requirement !in old(Requirements()) ==> NoRepeats()
    {
      hide Split, RequirementsIn, OnceEach;
      SplitNone();
      InsertAndIfDue();
      SplitOne(Items(), requirement);
      OneRequirementMore(Items(), requirement);
      if OnceEach(Items()) && requirement !in Items() { OnceEachMore(Items(), requirement); }
      AddRequirementToList(requirement);
      numRequirements := numRequirements + 1;
    }

    method StartNewOredRequirement()
      requires Valid()
      modifies this`insertAndBeforeNextRequirement
      ensures Valid() && Groups() == StartNew(old(Groups()))
      ensures Formula() == old(Formula()) && Requirements() == old(Requirements())
      ensures old(NoRepeats()) ==> NoRepeats()
    {
      SplitNone();
      insertAndBeforeNextRequirement := true;
    }

    /** alert_condition_for_each with the remover's callback: every requirement
        goes back to the pool exactly once. */
    method DestroyRequirements(pool: Pool)
      requires Valid() && NoRepeats() && Requirements() <= pool.live
      modifies pool
      ensures pool.live == old(pool.live) - Requirements()
    {
      var i := 0;
      while i < numItemsInReqsArray
        invariant i <= numItemsInReqsArray
        invariant pool.live == old(pool.live) - RequirementsIn(variableRequirements[..i])
      {
        assert variableRequirements[..i + 1] == variableRequirements[..i] + [variableRequirements[i]];
        if variableRequirements[i] != null {
          assert variableRequirements[i] in Items();
          pool.Free(variableRequirements[i]);
        }
        i := i + 1;
      }
    }

    lemma FormulaIsClosed()
      requires Valid()
      ensures Closed(CnfOf(Groups())) == if numRequirements == 0 then [] else Formula()
    {
    }

    /** Every cache of the condition is as it was or holds the current result. */
    twostate predicate KeptOrSettled(values: Readings)
      requires numItemsInReqsArray <= variableRequirements.Length
      requires forall r | r in Requirements() :: old(allocated(r))
      reads this, variableRequirements, Requirements()
    {
      forall r | r in Requirements() :: r.CacheOf() == old(r.CacheOf()) || r.Settled(values)
    }

    /** Evaluates requirements only until one holds, but walks to the end of the
        group. A group without requirements fires an assert. */
    method EvaluateOredRequirement(startIdx: nat, current: CurrentValues) returns (result: bool, endIdx: nat)
      requires startIdx < numItemsInReqsArray <= variableRequirements.Length
      requires variableRequirements[startIdx] != null && Ready(current.values)
      modifies Requirements()
      ensures startIdx < endIdx <= numItemsInReqsArray
      ensures endIdx == numItemsInReqsArray || variableRequirements[endIdx] == null
      ensures forall i | startIdx <= i < endIdx :: variableRequirements[i] != null
      ensures result == AnyHolds(Comparisons(variableRequirements[startIdx..endIdx]), current.values)
      ensures KeptOrSettled(current.values)
    {
      result := false;
      endIdx := startIdx;
      while endIdx < numItemsInReqsArray && variableRequirements[endIdx] != null
        invariant startIdx <= endIdx <= numItemsInReqsArray
        invariant forall i | startIdx <= i < endIdx :: variableRequirements[i] != null
        invariant result == AnyHolds(Comparisons(variableRequirements[startIdx..endIdx]), current.values)
        invariant KeptOrSettled(current.values)
      {
        var requirement := variableRequirements[endIdx];
        AnyHoldsOneMore(variableRequirements[startIdx..endIdx], requirement, current.values);
        assert variableRequirements[startIdx..endIdx + 1] == variableRequirements[startIdx..endIdx] + [requirement];
        assert requirement in Items();
        if !result {
          result := requirement.Evaluate(current);
        }
        endIdx := endIdx + 1;
      }
    }

    lemma ItemsSlice(a: nat, b: nat)
      requires a <= b <= numItemsInReqsArray <= variableRequirements.Length
      ensures variableRequirements[a..b] == Items()[a..b]
    {
    }

    /** Stops at the first group of which nothing holds. A condition without
        items fires an assert. */
    method Evaluate(current: CurrentValues) returns (result: bool)
      requires Valid() && numRequirements > 0 && Ready(current.values)
      modifies Requirements()
      ensures result == EvalCnf(Formula(), current.values)
      ensures KeptOrSettled(current.values)
    {
      hide Split, AnyHolds, EvalCnf;
      ghost var items := Items();
      ghost var done := 0;
      var reqIdx := 0;
      while reqIdx < numItemsInReqsArray
        invariant reqIdx == GroupStart(done) && (done == 0 || GroupEnds(items, done))
        invariant done > 0 ==> EvalCnf(CnfOf(Split(items[..done])), current.values)
        invariant KeptOrSettled(current.values)
      {
        if items[reqIdx] == null { NullMakesEmptyGroup(items, done); }
        var oredReqResult, endIdx := EvaluateOredRequirement(reqIdx, current);
        NextGroup(items, done, endIdx, current.values);
        ItemsSlice(reqIdx, endIdx);
        done := endIdx;
        reqIdx := endIdx;
        if !oredReqResult {
          return false;
        }
        reqIdx := reqIdx + 1;
      }
      LastIsRequirement(items);
      assert items[..done] == items;
      return true;
    }
  }

  lemma {:induction false} SplitElements(items: seq<VariableRequirement?>)
    ensures forall g, r | g in Split(items) && r in g :: r in items
  {
    if items != [] {
      var front, item := items[..|items| - 1], items[|items| - 1];
      SplitElements(front);
      assert items == front + [item];
      SplitOne(front, item);
      forall g, r | g in Split(items) && r in g ensures r in items {
        if item != null {
          var last := Split(front)[|Split(front)| - 1];
          assert last in Split(front);
          assert g in Split(front) || g == last + [item];
        }
      }
    }
  }

  /** Every comparison of a condition is that of a requirement in it. */
  lemma ComparisonsIn(items: seq<VariableRequirement?>, i: nat, c: Comparison)
    requires i < |Split(items)| && c in CnfOf(Split(items))[i]
    ensures exists r :: r in RequirementsIn(items) && r.comparison == c
  {
  }

  /** The items before position `stop` are whole groups. */
  ghost predicate GroupEnds(items: seq<VariableRequirement?>, stop: nat) {
    stop <= |items| && (stop < |items| ==> items[stop] == null)
  }

  /** Where the group after the items before `done` starts. */
  function GroupStart(done: nat): nat {
    if done == 0 then 0 else done + 1
  }

  /** Whole groups do not change any more when items are added. */
  lemma {:induction false} SplitPrefix(items: seq<VariableRequirement?>, stop: nat)
    requires stop < |items| && items[stop] == null
    ensures Split(items[..stop]) < Split(items)
    decreases |items|
  {
    hide Split;
    var last := items[|items| - 1];
    assert items == items[..|items| - 1] + [last];
    SplitOne(items[..|items| - 1], last);
    if stop < |items| - 1 {
      assert items[..|items| - 1][..stop] == items[..stop];
      SplitPrefix(items[..|items| - 1], stop);
    }
  }

  /** A null where a group should start leaves an empty group. */
  lemma NullMakesEmptyGroup(items: seq<VariableRequirement?>, done: nat)
    requires done == 0 || GroupEnds(items, done)
    requires GroupStart(done) < |items| && items[GroupStart(done)] == null
    ensures !NoEmptyGroup(Split(items))
  {
    hide Split;
    var start := GroupStart(done);
    SplitPrefix(items, start);
    SplitNone();
    if done > 0 {
      assert items[..start] == items[..done] + [null];
      SplitOne(items[..done], null);
    }
    var before, last := Split(items[..start]), |Split(items[..start])| - 1;
    assert before[last] == [];
    assert before == Split(items)[..|before|];
    assert Split(items)[last] == before[last];
  }

  lemma LastIsRequirement(items: seq<VariableRequirement?>)
    requires NoEmptyGroup(Split(items)) && items != []
    ensures items[|items| - 1] != null
  {
  }

  lemma SplitNext(items: seq<VariableRequirement?>, done: nat, stop: nat)
    requires done == 0 || GroupEnds(items, done)
    requires GroupStart(done) < stop <= |items|
    requires forall i | GroupStart(done) <= i < stop :: items[i] != null
    ensures (var run: seq<VariableRequirement> := items[GroupStart(done)..stop];
             Split(items[..stop]) == (if done == 0 then [] else Split(items[..done])) + [run])
  {
    hide Split;
    var run: seq<VariableRequirement> := items[GroupStart(done)..stop];
    SplitRun(items, GroupStart(done), stop);
    SplitNone();
    assert [] + run == run;
    if done > 0 {
      assert items[..done + 1] == items[..done] + [null];
      SplitOne(items[..done], null);
    }
  }

  /** One more whole group decides about the items up to its end, and, if it is
      false, about the whole condition. */
  lemma NextGroup(items: seq<VariableRequirement?>, done: nat, stop: nat, values: Readings)
    requires done == 0 || GroupEnds(items, done)
    requires GroupStart(done) < stop <= |items| && GroupEnds(items, stop)
    requires forall i | GroupStart(done) <= i < stop :: items[i] != null
    requires done > 0 ==> EvalCnf(CnfOf(Split(items[..done])), values)
    ensures AnyHolds(Comparisons(items[GroupStart(done)..stop]), values)
       <==> EvalCnf(CnfOf(Split(items[..stop])), values)
    ensures !AnyHolds(Comparisons(items[GroupStart(done)..stop]), values) ==> !EvalCnf(CnfOf(Split(items)), values)
  {
    hide Split;
    SplitNext(items, done, stop);
    EvalOneMore(if done == 0 then [] else Split(items[..done]), items[GroupStart(done)..stop], values);
    if stop < |items| {
      SplitPrefix(items, stop);
      if EvalCnf(CnfOf(Split(items)), values) {
        EvalPrefix(Split(items[..stop]), Split(items), values);
      }
    } else {
      assert items[..stop] == items;
    }
  }

  lemma EvalPrefix(some: seq<seq<VariableRequirement>>, all: seq<seq<VariableRequirement>>, values: Readings)
    requires some <= all && EvalCnf(CnfOf(all), values)
    ensures EvalCnf(CnfOf(some), values)
  {
  }

  lemma AnyHoldsOneMore(group: seq<VariableRequirement>, r: VariableRequirement, values: Readings)
    ensures AnyHolds(Comparisons(group + [r]), values) ==
            (AnyHolds(Comparisons(group), values) || Holds(r.comparison, values))
  {
    assert Comparisons(group + [r]) == Comparisons(group) + [r.comparison];
  }

  lemma EvalOneMore(groups: seq<seq<VariableRequirement>>, g: seq<VariableRequirement>, values: Readings)
    ensures EvalCnf(CnfOf(groups + [g]), values) ==
            (EvalCnf(CnfOf(groups), values) && AnyHolds(Comparisons(g), values))
  {
    assert CnfOf(groups + [g]) == CnfOf(groups) + [Comparisons(g)];
  }

  lemma SplitNone()
    ensures Split([]) == [[]]
  {
  }
}
