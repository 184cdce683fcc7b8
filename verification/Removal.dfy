// Removal plans: the inverses of the steps of some modules, in reverse order
// (BuildRemovalPlan in internal/planner/removal.go).
module Removal {
  import opened Text
  import opened Topology
  import opened Plans
  import opened Planner
  import opened PlannerTheorems

  datatype RemovalError =
    | UnknownRemoval(name: string)
    | MissingInverse(id: string)

  predicate HasInverse(step: Step) {
    step.inverse.Some? && step.inverse.value.operation != ""
  }

  function InverseStep(step: Step): Step
    requires HasInverse(step)
  {
    Step(step.id, step.owner, [], step.description, step.scope, step.network, step.inverse.value.operation,
         REMOVE, step.inverse.value.value, step.desired, None)
  }

  ghost function Owners(steps: seq<Step>): set<string> {
    set s | s in steps :: s.owner
  }

  ghost predicate Invertible(steps: seq<Step>, selected: set<string>) {
    forall s :: s in steps && s.owner in selected ==> HasInverse(s)
  }

  // The selected steps, last first.
  ghost function Backward(steps: seq<Step>, selected: set<string>): (r: seq<Step>) {
    if steps == [] then []
    else
      var last := steps[|steps| - 1];
      (if last.owner in selected then [last] else []) + Backward(steps[..|steps| - 1], selected)
  }

  // It carries the inverse's operation and value, expects to find what the step left, depends on nothing
  // and has no inverse of its own; the rest is the step's.
  ghost predicate IsInverseOf(r: Step, s: Step) {
    && s.inverse.Some? && s.inverse.value.operation != ""
    && r.id == s.id && r.owner == s.owner && r.description == s.description && r.scope == s.scope && r.network == s.network
    && r.operation == s.inverse.value.operation && r.desired == s.inverse.value.value && r.observed == s.desired
    && r.disposition == "remove" && r.dependsOn == [] && r.inverse == None
  }

  ghost predicate Inverts(removal: seq<Step>, steps: seq<Step>) {
    |removal| == |steps| && forall i :: 0 <= i < |steps| ==> IsInverseOf(removal[i], steps[i])
  }

  // The last selected step without an inverse is the one reported.
  ghost predicate IsLastWithoutInverse(steps: seq<Step>, selected: set<string>, id: string) {
    exists i :: 0 <= i < |steps| && steps[i].id == id && steps[i].owner in selected && !HasInverse(steps[i]) &&
      forall j :: i < j < |steps| && steps[j].owner in selected ==> HasInverse(steps[j])
  }

  method BuildRemovalPlan(plan: Plan, modules: seq<string>) returns (r: Result<Plan, RemovalError>)
    ensures r.Ok? <==> "" !in modules && Elements(modules) <= Owners(plan.steps) && Invertible(plan.steps, Elements(modules))
    ensures r.Ok? ==> r.value.selection == plan.selection && Inverts(r.value.steps, Backward(plan.steps, Elements(modules)))
    ensures r.Err? && r.error.UnknownRemoval? ==>
      r.error.name in modules && (r.error.name == "" || r.error.name !in Owners(plan.steps))
    ensures r.Err? && r.error.MissingInverse? ==>
      "" !in modules && Elements(modules) <= Owners(plan.steps) &&
      IsLastWithoutInverse(plan.steps, Elements(modules), r.error.id)
  {
    var selected := {};
    for i := 0 to |modules|
      invariant selected == Elements(modules[..i]) && "" !in modules[..i]
    {
      if modules[i] == "" {
        return Err(UnknownRemoval(""));
      }
      PrefixElements(modules, i);
      assert modules[..i + 1] == modules[..i] + [modules[i]];
      selected := selected + {modules[i]};
    }
    assert modules[..|modules|] == modules;
    var known := set s | s in plan.steps :: s.owner;
    var todo := selected;
    while todo != {}
      invariant todo <= selected && selected - todo <= known
      decreases todo
    {
      var name :| name in todo;
      if name !in known {
        return Err(UnknownRemoval(name));
      }
      todo := todo - {name};
    }
    ghost var backward;
    backward, r := CollectInverses(plan, selected);
  }

  method CollectInverses(plan: Plan, selected: set<string>) returns (ghost backward: seq<Step>, r: Result<Plan, RemovalError>)
    ensures backward == Backward(plan.steps, selected)
    ensures r.Ok? <==> Invertible(plan.steps, selected)
    ensures r.Ok? ==> r.value.selection == plan.selection && Inverts(r.value.steps, backward)
    ensures r.Err? ==> r.error.MissingInverse? && IsLastWithoutInverse(plan.steps, selected, r.error.id)
  {
    backward := Backward(plan.steps, selected);
    var steps: seq<Step> := [];
    ghost var taken: seq<Step> := [];
    var i := |plan.steps|;
    assert plan.steps[..|plan.steps|] == plan.steps;
    while i > 0
      invariant 0 <= i <= |plan.steps|
      invariant Inverts(steps, taken)
      invariant taken + Backward(plan.steps[..i], selected) == backward
      invariant forall j :: i <= j < |plan.steps| && plan.steps[j].owner in selected ==> HasInverse(plan.steps[j])
    {
      i := i - 1;
      var step := plan.steps[i];
      assert plan.steps[..i + 1][..i] == plan.steps[..i];
      if step.owner !in selected {
        continue;
      }
      if !HasInverse(step) {
        return backward, Err(MissingInverse(step.id));
      }
      AppendIsAssociative(taken, [step], Backward(plan.steps[..i], selected));
      steps, taken := steps + [InverseStep(step)], taken + [step];
    }
    r := Ok(Plan(plan.selection, steps));
  }

  lemma {:induction false} BackwardMembers(steps: seq<Step>, selected: set<string>)
    ensures forall s :: s in Backward(steps, selected) <==> s in steps && s.owner in selected
  {
    if steps != [] {
      var n := |steps| - 1;
      BackwardMembers(steps[..n], selected);
      assert steps == steps[..n] + [steps[n]];
    }
  }

  // One element of a sequence stands before another.
  ghost predicate Follows<T>(s: seq<T>, first: T, second: T) {
    exists k, l :: 0 <= k < l < |s| && s[k] == first && s[l] == second
  }

  // Going backward turns every pair of selected steps around.
  lemma {:induction false} BackwardReverses(steps: seq<Step>, selected: set<string>, i: nat, j: nat)
    requires i < j < |steps| && steps[i].owner in selected && steps[j].owner in selected
    ensures Follows(Backward(steps, selected), steps[j], steps[i])
  {
    var n := |steps| - 1;
    var rest := Backward(steps[..n], selected);
    var head := if steps[n].owner in selected then [steps[n]] else [];
    assert Backward(steps, selected) == head + rest;
    if j < n {
      BackwardReverses(steps[..n], selected, i, j);
      FollowsInTail(head, rest, steps[j], steps[i]);
    } else {
      BackwardMembers(steps[..n], selected);
      assert steps[i] == steps[..n][i];
      FollowsHead(steps[j], rest, steps[i]);
    }
  }

  lemma FollowsInTail<T>(head: seq<T>, rest: seq<T>, first: T, second: T)
    requires Follows(rest, first, second)
    ensures Follows(head + rest, first, second)
  {
    var k, l :| 0 <= k < l < |rest| && rest[k] == first && rest[l] == second;
    assert (head + rest)[|head| + k] == first && (head + rest)[|head| + l] == second;
  }

  lemma FollowsHead<T>(first: T, rest: seq<T>, second: T)
    requires second in rest
    ensures Follows([first] + rest, first, second)
  {
    var l :| 0 <= l < |rest| && rest[l] == second;
    assert ([first] + rest)[0] == first && ([first] + rest)[l + 1] == second;
  }

  // In the removal of a plan every dependent goes before the selected steps it depends on.
  lemma DependentsAreRemovedFirst(catalog: Catalog, selection: Selection, steps: seq<Step>, selected: set<string>,
                                  removal: seq<Step>, i: nat, j: nat)
    requires AllUnique(catalog) && Planned(catalog, selection) == Ok(steps)
    requires Inverts(removal, Backward(steps, selected))
    requires i < |steps| && steps[i].owner in selected
    requires j < |steps| && steps[j].owner in selected
    requires steps[i].id in steps[j].dependsOn
    ensures ComesBefore(removal, steps[j].id, steps[i].id)
  {
    DependencyIsEarlier(catalog, selection, steps, i, j);
    BackwardReverses(steps, selected, i, j);
    var backward := Backward(steps, selected);
    var k, l :| 0 <= k < l < |backward| && backward[k] == steps[j] && backward[l] == steps[i];
    assert removal[k].id == steps[j].id && removal[l].id == steps[i].id;
  }

  lemma DependencyIsEarlier(catalog: Catalog, selection: Selection, steps: seq<Step>, i: nat, j: nat)
    requires AllUnique(catalog) && Planned(catalog, selection) == Ok(steps)
    requires i < |steps| && j < |steps| && steps[i].id in steps[j].dependsOn
    ensures i < j
  {
    assert Ids(steps)[i] in Ids(steps);
    PlanRespectsSteps(catalog, selection, steps, j, steps[i].id);
    var a, b :| 0 <= a < b < |steps| && steps[a].id == steps[i].id && steps[b].id == steps[j].id;
    PlanHasDistinctIds(catalog, selection, steps);
    assert Ids(steps)[a] == Ids(steps)[i] && Ids(steps)[b] == Ids(steps)[j];
  }

  lemma {:induction false} PlanHasDistinctIds(catalog: Catalog, selection: Selection, steps: seq<Step>)
    requires AllUnique(catalog) && Planned(catalog, selection) == Ok(steps)
    ensures NoDuplicates(Ids(steps))
  {
    PlanIsLeastOrder(catalog, selection, steps);
  }
}
