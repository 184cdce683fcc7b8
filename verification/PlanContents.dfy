// What a plan holds and when there is one, in the words of the definitions and the selection
// (internal/planner/plan.go:126-274).
module PlanContents {
  import opened Text
  import opened Topology
  import opened Plans
  import opened Planner
  import PlannerTheorems

  // ---- Selection ----

  // Named in an only-selection; or, without one, enabled or added, and not excluded.
  ghost predicate Selects(catalog: Catalog, selection: Selection, n: string) {
    n in catalog &&
    if selection.only != [] then n in selection.only
    else (catalog[n].enabled || n in selection.with) && n !in selection.without
  }

  lemma ChosenAreSelected(catalog: Catalog, selection: Selection)
    requires UnknownIn(catalog, selection).None?
    ensures forall n :: n in Chosen(catalog, selection) <==> Selects(catalog, selection, n)
  {
    NamesKnown(catalog, selection);
    assert forall n :: n in Elements(selection.only) <==> n in selection.only;
    assert forall n :: n in Elements(selection.with) <==> n in selection.with;
    assert forall n :: n in Elements(selection.without) <==> n in selection.without;
  }

  lemma SelectedExist(catalog: Catalog, selection: Selection)
    ensures forall n :: Selects(catalog, selection, n) ==> n in catalog
  {
  }

  lemma PlannedIsKnown(catalog: Catalog, selection: Selection)
    requires AllUnique(catalog) && Planned(catalog, selection).Ok?
    ensures UnknownIn(catalog, selection).None?
  {
  }

  // A plan holds a step exactly when it is a step of a module that is named in an only-selection, or,
  // without one, is enabled or added and not excluded.
  lemma PlanHoldsExactly(catalog: Catalog, selection: Selection, steps: seq<Step>, s: Step)
    requires AllUnique(catalog) && Planned(catalog, selection) == Ok(steps)
    ensures s in steps <==> exists n :: (
      n in catalog && s in catalog[n].steps
      && if selection.only != [] then n in selection.only
         else (catalog[n].enabled || n in selection.with) && n !in selection.without)
    ensures NoDuplicates(steps)
  {
    hide Planned, Chosen, AllUnique;
    PlannedIsKnown(catalog, selection);
    ChosenAreSelected(catalog, selection);
    PlannerTheorems.PlanIsLeastOrder(catalog, selection, steps);
    assert s in steps <==> s in Elements(steps);
    assert forall n :: Selects(catalog, selection, n) ==> n in catalog;
  }

  // The same of the modules as they are given: a step without an owner gets the name of its module.
  lemma PlanHoldsGivenSteps(modules: seq<Module>, selection: Selection, plan: Plan, s: Step)
    requires Distinct(modules) && AllUnique(CatalogOf(modules)) && PlanOf(CatalogOf(modules), selection) == Ok(plan)
    ensures plan.selection == selection
    ensures s in plan.steps <==> exists i, k :: (
      0 <= i < |modules| && 0 <= k < |modules[i].steps|
      && s == (if modules[i].steps[k].owner == "" then modules[i].steps[k].(owner := modules[i].name) else modules[i].steps[k])
      && if selection.only != [] then modules[i].name in selection.only
         else (modules[i].enabled || modules[i].name in selection.with) && modules[i].name !in selection.without)
  {
    hide Planned, CatalogOf, AllUnique;
    var catalog := CatalogOf(modules);
    PlanHoldsExactly(catalog, selection, plan.steps, s);
    if n :| Selects(catalog, selection, n) && s in catalog[n].steps {
      var i, k := GivenStep(modules, n, s);
      assert modules[i].steps[k] in modules[i].steps;
    }
    forall i, k | 0 <= i < |modules| && 0 <= k < |modules[i].steps|
      ensures modules[i].name in catalog && catalog[modules[i].name].enabled == modules[i].enabled
      ensures WithOwner(modules[i].name, modules[i].steps[k]) in catalog[modules[i].name].steps
    {
      GivenModule(modules, i);
      assert modules[i].steps[k] in modules[i].steps;
    }
  }

  lemma GivenModule(modules: seq<Module>, i: nat)
    requires DistinctModules(modules) && i < |modules|
    ensures modules[i].name in CatalogOf(modules) && CatalogOf(modules)[modules[i].name] == View(modules[i])
  {
    assert modules[i] in modules;
  }

  lemma GivenStep(modules: seq<Module>, n: string, s: Step) returns (i: nat, k: nat)
    requires DistinctModules(modules) && n in CatalogOf(modules) && s in CatalogOf(modules)[n].steps
    ensures i < |modules| && k < |modules[i].steps| && modules[i].name == n
    ensures CatalogOf(modules)[n].enabled == modules[i].enabled && s == WithOwner(n, modules[i].steps[k])
  {
    var m :| m in modules && m.name == n && View(m) == CatalogOf(modules)[n];
    i :| 0 <= i < |modules| && modules[i] == m;
    var t :| t in m.steps && WithOwner(n, t) == s;
    k :| 0 <= k < |m.steps| && m.steps[k] == t;
  }

  ghost predicate NamesExist(catalog: Catalog, selection: Selection) {
    forall n :: n in selection.only || n in selection.with || n in selection.without ==> n in catalog
  }

  // No module has this name that a selected module may need: a selected one or, with an only-selection, an
  // enabled one.
  ghost predicate Unmet(catalog: Catalog, selection: Selection, d: string) {
    !(d in catalog && (Selects(catalog, selection, d) || (selection.only != [] && catalog[d].enabled)))
  }

  ghost predicate NeedsAreMet(catalog: Catalog, selection: Selection) {
    forall n, d :: Selects(catalog, selection, n) && d in catalog[n].dependsOn ==> !Unmet(catalog, selection, d)
  }

  lemma KnownExactlyWhen(catalog: Catalog, selection: Selection)
    ensures UnknownIn(catalog, selection).None? <==> NamesExist(catalog, selection)
  {
    NoUnknown(catalog, "only", selection.only);
    NoUnknown(catalog, "with", selection.with);
    NoUnknown(catalog, "without", selection.without);
    assert forall names: seq<string>, n :: n in names <==> n in Elements(names);
  }

  lemma AdmittedExactlyWhen(catalog: Catalog, selection: Selection, d: string)
    requires UnknownIn(catalog, selection).None?
    ensures Admits(catalog, selection, d) <==> !Unmet(catalog, selection, d)
  {
    hide Chosen, UnknownIn, Selects;
    ChosenAreSelected(catalog, selection);
  }

  lemma ClosedExactlyWhen(catalog: Catalog, selection: Selection)
    requires UnknownIn(catalog, selection).None?
    ensures SelectionClosed(catalog, selection) <==> NeedsAreMet(catalog, selection)
  {
    hide Chosen, UnknownIn, Selects, Admits, Unmet;
    ChosenAreSelected(catalog, selection);
    SelectedExist(catalog, selection);
    forall d ensures Admits(catalog, selection, d) <==> !Unmet(catalog, selection, d) {
      AdmittedExactlyWhen(catalog, selection, d);
    }
  }

  lemma {:induction false} OnlyUnknown(catalog: Catalog, field: string, names: seq<string>)
    ensures FirstUnknown(catalog, field, names).Some? ==> FirstUnknown(catalog, field, names).value.UnknownSelection?
  {
    if names != [] { OnlyUnknown(catalog, field, names[1..]); }
  }

  lemma {:induction false} OnlyUnmet(catalog: Catalog, selection: Selection, subject: string, dependencies: seq<string>)
    ensures FirstUnmet(catalog, selection, subject, dependencies).Some? ==>
      FirstUnmet(catalog, selection, subject, dependencies).value.MissingModule?
  {
    if dependencies != [] { OnlyUnmet(catalog, selection, subject, dependencies[1..]); }
  }

  lemma {:induction false} OnlyUnmetOf(catalog: Catalog, selection: Selection, names: seq<string>)
    requires forall n :: n in names ==> n in catalog
    ensures FirstUnmetOf(catalog, selection, names).Some? ==> FirstUnmetOf(catalog, selection, names).value.MissingModule?
  {
    if names != [] {
      OnlyUnmet(catalog, selection, names[0], catalog[names[0]].dependsOn);
      OnlyUnmetOf(catalog, selection, names[1..]);
    }
  }

  lemma {:induction false} OnlyUnmetStep(catalog: Catalog, selection: Selection, id: string, dependencies: seq<string>)
    ensures FirstUnmetStep(catalog, selection, id, dependencies).Some? ==>
      FirstUnmetStep(catalog, selection, id, dependencies).value.MissingStep?
  {
    if dependencies != [] { OnlyUnmetStep(catalog, selection, id, dependencies[1..]); }
  }

  lemma {:induction false} OnlyUnmetStepOf(catalog: Catalog, selection: Selection, steps: map<string, Step>, ids: seq<string>)
    requires forall id :: id in ids ==> id in steps
    ensures FirstUnmetStepOf(catalog, selection, steps, ids).Some? ==>
      FirstUnmetStepOf(catalog, selection, steps, ids).value.MissingStep?
  {
    if ids != [] {
      OnlyUnmetStep(catalog, selection, ids[0], steps[ids[0]].dependsOn);
      OnlyUnmetStepOf(catalog, selection, steps, ids[1..]);
    }
  }

  lemma OrderFailure(catalog: Catalog, selection: Selection)
    requires AllUnique(catalog)
    ensures Ordered(catalog, selection).Err? ==>
      Ordered(catalog, selection).error.MissingStep? || Ordered(catalog, selection).error.DependencyCycle?
  {
    var steps := ById(StepsOf(catalog, Chosen(catalog, selection)));
    InOrderMembers(PLAIN, steps.Keys);
    OnlyUnmetStepOf(catalog, selection, steps, InOrder(PLAIN, steps.Keys));
  }

  // Planning stops at the selection exactly when it has an unknown name, or a selected module needs one
  // that is neither selected nor, with an only-selection, enabled.
  lemma SelectionFailsExactlyWhen(catalog: Catalog, selection: Selection)
    requires AllUnique(catalog)
    ensures (Planned(catalog, selection).Err? && Planned(catalog, selection).error.UnknownSelection?)
       <==> !NamesExist(catalog, selection)
    ensures (Planned(catalog, selection).Err? && Planned(catalog, selection).error.MissingModule?)
       <==> NamesExist(catalog, selection) && !NeedsAreMet(catalog, selection)
  {
    hide Chosen, Ordered, NamesExist, NeedsAreMet;
    KnownExactlyWhen(catalog, selection);
    OnlyUnknown(catalog, "only", selection.only);
    OnlyUnknown(catalog, "with", selection.with);
    OnlyUnknown(catalog, "without", selection.without);
    if UnknownIn(catalog, selection).None? {
      var names := InOrder(ModuleRank, Chosen(catalog, selection));
      NamesKnown(catalog, selection);
      InOrderMembers(ModuleRank, Chosen(catalog, selection));
      OnlyUnmetOf(catalog, selection, names);
      PlannerTheorems.UnmetOfExactlyWhen(catalog, selection, names);
      ClosedExactlyWhen(catalog, selection);
      OrderFailure(catalog, selection);
    }
  }

  // ---- Order ----

  // A selected module and one it directly requires.
  ghost predicate Needs(catalog: Catalog, selection: Selection, d: string, n: string) {
    Selects(catalog, selection, d) && Selects(catalog, selection, n) && d in catalog[n].dependsOn
  }

  ghost predicate HasStep(catalog: Catalog, selection: Selection, n: string, s: Step) {
    Selects(catalog, selection, n) && s in catalog[n].steps
  }

  // One step has to come before another: the other names it, or its module requires the module of the one.
  ghost predicate Precedes(catalog: Catalog, selection: Selection, a: string, b: string) {
    exists d, s, n, t ::
      && HasStep(catalog, selection, d, s) && HasStep(catalog, selection, n, t)
      && s.id == a && t.id == b && (a in t.dependsOn || Needs(catalog, selection, d, n))
  }

  // No step has this ID that a selected step may depend on.
  ghost predicate StepUnmet(catalog: Catalog, selection: Selection, d: string) {
    !if selection.only != [] then exists m, t :: m in catalog && t in catalog[m].steps && t.id == d
     else exists m, t :: HasStep(catalog, selection, m, t) && t.id == d
  }

  ghost predicate StepNeedsAreMet(catalog: Catalog, selection: Selection) {
    forall n, s, d :: HasStep(catalog, selection, n, s) && d in s.dependsOn ==> !StepUnmet(catalog, selection, d)
  }

  ghost predicate ModulesInACircle(catalog: Catalog, selection: Selection, walk: seq<string>) {
    && |walk| >= 2 && walk[0] == walk[|walk| - 1]
    && forall i :: 0 <= i < |walk| - 1 ==> Needs(catalog, selection, walk[i], walk[i + 1])
  }

  ghost predicate StepsInACircle(catalog: Catalog, selection: Selection, walk: seq<string>) {
    && |walk| >= 2 && walk[0] == walk[|walk| - 1]
    && forall i :: 0 <= i < |walk| - 1 ==> Precedes(catalog, selection, walk[i], walk[i + 1])
  }

  lemma EdgesAreNeeds(catalog: Catalog, selection: Selection, d: string, n: string)
    requires UnknownIn(catalog, selection).None?
    ensures var chosen := Chosen(catalog, selection);
            (d, n) in ModuleEdges(catalog, chosen) && n in chosen <==> Needs(catalog, selection, d, n)
  {
    hide Chosen, UnknownIn;
    ChosenAreSelected(catalog, selection);
  }

  // The edges of the step graph, between steps of the plan, are exactly those.
  lemma EdgesArePrecedences(catalog: Catalog, selection: Selection, a: string, b: string)
    requires AllUnique(catalog) && UnknownIn(catalog, selection).None?
    ensures var byId := PlannerTheorems.StepsById(catalog, selection);
            (a, b) in PlannerTheorems.EdgesOf(catalog, selection) && a in byId && b in byId <==> Precedes(catalog, selection, a, b)
  {
    hide UnknownIn, Selects, AllUnique;
    var chosen, byId := Chosen(catalog, selection), PlannerTheorems.StepsById(catalog, selection);
    ChosenAreSelected(catalog, selection);
    KnownSteps(catalog, selection);
    if (a, b) in PlannerTheorems.EdgesOf(catalog, selection) && a in byId && b in byId {
      EdgeIsPrecedence(catalog, selection, a, b);
    }
    if Precedes(catalog, selection, a, b) {
      PrecedenceIsEdge(catalog, selection, a, b);
    }
  }

  lemma KnownSteps(catalog: Catalog, selection: Selection)
    requires AllUnique(catalog) && UnknownIn(catalog, selection).None?
    ensures var byId := PlannerTheorems.StepsById(catalog, selection);
            && (forall n, s :: HasStep(catalog, selection, n, s) ==> s.id in byId && byId[s.id] == s)
            && (forall id :: id in byId ==> byId[id].id == id && exists n :: HasStep(catalog, selection, n, byId[id]))
  {
    hide Chosen, UnknownIn, Selects;
    StepsAreSelected(catalog, selection);
    PlannerTheorems.ByIdMembers(StepsOf(catalog, Chosen(catalog, selection)));
    var byId := PlannerTheorems.StepsById(catalog, selection);
    assert forall id :: id in byId ==> byId[id] in StepsOf(catalog, Chosen(catalog, selection));
  }

  lemma StepsAreSelected(catalog: Catalog, selection: Selection)
    requires UnknownIn(catalog, selection).None?
    ensures forall s :: s in StepsOf(catalog, Chosen(catalog, selection)) <==> exists n :: HasStep(catalog, selection, n, s)
  {
    hide Chosen, UnknownIn, Selects;
    ChosenAreSelected(catalog, selection);
    SelectedExist(catalog, selection);
    forall s
      ensures s in StepsOf(catalog, Chosen(catalog, selection)) <==> exists n :: HasStep(catalog, selection, n, s)
    {
      if s in StepsOf(catalog, Chosen(catalog, selection)) {
        var n :| n in Chosen(catalog, selection) && n in catalog && s in catalog[n].steps;
        assert HasStep(catalog, selection, n, s);
      }
      if n :| HasStep(catalog, selection, n, s) {
        assert n in Chosen(catalog, selection);
      }
    }
  }

  lemma EdgeIsPrecedence(catalog: Catalog, selection: Selection, a: string, b: string)
    requires AllUnique(catalog) && UnknownIn(catalog, selection).None?
    requires var byId := PlannerTheorems.StepsById(catalog, selection);
             (a, b) in PlannerTheorems.EdgesOf(catalog, selection) && a in byId && b in byId
    ensures Precedes(catalog, selection, a, b)
  {
    hide UnknownIn, Selects, AllUnique, Chosen;
    var chosen, byId := Chosen(catalog, selection), PlannerTheorems.StepsById(catalog, selection);
    ChosenAreSelected(catalog, selection);
    KnownSteps(catalog, selection);
    if (a, b) in DependencyEdges(byId, byId.Keys) {
      var d :| HasStep(catalog, selection, d, byId[a]);
      var n :| HasStep(catalog, selection, n, byId[b]);
      assert byId[a].id == a && byId[b].id == b && a in byId[b].dependsOn;
    } else {
      var n :| n in chosen && n in catalog && (a, b) in RequiredBy(catalog, chosen, n, catalog[n].dependsOn);
      var d :| d in catalog[n].dependsOn && d in chosen && d in catalog && (a, b) in Cross(catalog[d].steps, catalog[n].steps);
      var s, t :| s in catalog[d].steps && t in catalog[n].steps && (a, b) == (s.id, t.id);
      assert HasStep(catalog, selection, d, s) && HasStep(catalog, selection, n, t) && Needs(catalog, selection, d, n);
    }
  }

  lemma PrecedenceIsEdge(catalog: Catalog, selection: Selection, a: string, b: string)
    requires AllUnique(catalog) && UnknownIn(catalog, selection).None? && Precedes(catalog, selection, a, b)
    ensures var byId := PlannerTheorems.StepsById(catalog, selection);
            (a, b) in PlannerTheorems.EdgesOf(catalog, selection) && a in byId && b in byId
  {
    hide UnknownIn, AllUnique, Chosen;
    var chosen, byId := Chosen(catalog, selection), PlannerTheorems.StepsById(catalog, selection);
    ChosenAreSelected(catalog, selection);
    KnownSteps(catalog, selection);
    var d, s, n, t :| HasStep(catalog, selection, d, s) && HasStep(catalog, selection, n, t)
      && s.id == a && t.id == b && (a in t.dependsOn || Needs(catalog, selection, d, n));
    assert byId[a] == s && byId[b] == t;
    if a in t.dependsOn {
      assert (a, b) in DependencyEdges(byId, byId.Keys);
    } else {
      assert (a, b) in Cross(catalog[d].steps, catalog[n].steps);
      assert (a, b) in RequiredBy(catalog, chosen, n, catalog[n].dependsOn);
      assert (a, b) in RequirementEdges(catalog, chosen, chosen);
    }
  }

  lemma ModuleCirclesAgree(catalog: Catalog, selection: Selection, walk: seq<string>)
    requires UnknownIn(catalog, selection).None?
    ensures var chosen := Chosen(catalog, selection);
            IsCycle(ModuleEdges(catalog, chosen), chosen, walk) <==> ModulesInACircle(catalog, selection, walk)
  {
    hide Chosen, UnknownIn, ModuleEdges, Needs;
    var chosen := Chosen(catalog, selection);
    forall d, n
      ensures (d, n) in ModuleEdges(catalog, chosen) && n in chosen <==> Needs(catalog, selection, d, n)
    {
      EdgesAreNeeds(catalog, selection, d, n);
    }
    NeedsAreChosen(catalog, selection);
    CircleAgrees(ModuleEdges(catalog, chosen), chosen, walk, (d, n) => Needs(catalog, selection, d, n));
  }

  lemma NeedsAreChosen(catalog: Catalog, selection: Selection)
    requires UnknownIn(catalog, selection).None?
    ensures forall d, n :: Needs(catalog, selection, d, n) ==> d in Chosen(catalog, selection) && n in Chosen(catalog, selection)
  {
    hide Chosen, UnknownIn;
    ChosenAreSelected(catalog, selection);
  }

  // Two ways to say that a walk closes.
  lemma CircleAgrees(edges: Edges, nodes: set<string>, walk: seq<string>, next: (string, string) -> bool)
    requires forall a, b :: next(a, b) <==> (a, b) in edges && a in nodes && b in nodes
    ensures IsCycle(edges, nodes, walk) <==>
      |walk| >= 2 && walk[0] == walk[|walk| - 1] && forall i :: 0 <= i < |walk| - 1 ==> next(walk[i], walk[i + 1])
  {
    if |walk| >= 2 && walk[0] == walk[|walk| - 1] {
      if forall i :: 0 <= i < |walk| - 1 ==> next(walk[i], walk[i + 1]) {
        forall i | 0 <= i < |walk|
          ensures walk[i] in nodes
        {
          if i < |walk| - 1 { assert next(walk[i], walk[i + 1]); } else { assert next(walk[i - 1], walk[i - 1 + 1]); }
        }
      }
      if IsCycle(edges, nodes, walk) {
        forall i | 0 <= i < |walk| - 1
          ensures next(walk[i], walk[i + 1])
        {
          assert walk[i] in Elements(walk) && walk[i + 1] in Elements(walk);
        }
      }
    }
  }

  lemma StepCirclesAgree(catalog: Catalog, selection: Selection, walk: seq<string>)
    requires AllUnique(catalog) && UnknownIn(catalog, selection).None?
    ensures IsCycle(PlannerTheorems.EdgesOf(catalog, selection), PlannerTheorems.StepsById(catalog, selection).Keys, walk)
       <==> StepsInACircle(catalog, selection, walk)
  {
    hide UnknownIn, AllUnique, PlannerTheorems.EdgesOf, PlannerTheorems.StepsById, Precedes;
    var edges, nodes := PlannerTheorems.EdgesOf(catalog, selection), PlannerTheorems.StepsById(catalog, selection).Keys;
    var next := (a, b) => (a, b) in edges && a in nodes && b in nodes;
    forall a, b
      ensures next(a, b) <==> Precedes(catalog, selection, a, b)
    {
      EdgesArePrecedences(catalog, selection, a, b);
    }
    CircleAgrees(edges, nodes, walk, next);
  }

  lemma StepAdmitsExactlyWhen(catalog: Catalog, selection: Selection, d: string)
    requires UnknownIn(catalog, selection).None?
    ensures StepAdmits(catalog, selection, d) <==> !StepUnmet(catalog, selection, d)
  {
    hide UnknownIn, Chosen, Selects;
    StepsAreSelected(catalog, selection);
    SelectedExist(catalog, selection);
    if m, t :| HasStep(catalog, selection, m, t) && t.id == d {
      assert t in StepsOf(catalog, Chosen(catalog, selection)) && m in catalog && t in StepsOf(catalog, catalog.Keys);
    }
    if m, t :| m in catalog && t in catalog[m].steps && t.id == d {
      assert t in StepsOf(catalog, catalog.Keys);
    }
  }

  lemma StepsClosedExactlyWhen(catalog: Catalog, selection: Selection)
    requires UnknownIn(catalog, selection).None?
    ensures PlannerTheorems.StepsClosed(catalog, selection) <==> StepNeedsAreMet(catalog, selection)
  {
    hide UnknownIn, Chosen, HasStep, StepAdmits, StepUnmet, StepsOf;
    StepsAreSelected(catalog, selection);
    forall d ensures StepAdmits(catalog, selection, d) <==> !StepUnmet(catalog, selection, d) {
      StepAdmitsExactlyWhen(catalog, selection, d);
    }
  }

  // There is a plan exactly when all names exist, the needs of the selected modules and steps are met,
  // no selected modules need each other in a circle and no steps have to precede each other in one.
  lemma PlanExistsExactlyWhen(catalog: Catalog, selection: Selection)
    requires AllUnique(catalog)
    ensures Planned(catalog, selection).Ok? <==>
      && NamesExist(catalog, selection)
      && NeedsAreMet(catalog, selection)
      && StepNeedsAreMet(catalog, selection)
      && !(exists walk :: ModulesInACircle(catalog, selection, walk))
      && !(exists walk :: StepsInACircle(catalog, selection, walk))
  {
    hide Planned, Chosen, UnknownIn, AllUnique, NamesExist, NeedsAreMet, StepNeedsAreMet, ModulesInACircle, StepsInACircle, IsCycle,
      PlannerTheorems.EdgesOf, PlannerTheorems.StepsById, ModuleEdges, PlannerTheorems.StepsClosed, SelectionClosed;
    KnownExactlyWhen(catalog, selection);
    PlannerTheorems.PlanExistsExactlyWhen(catalog, selection);
    if UnknownIn(catalog, selection).None? {
      ClosedExactlyWhen(catalog, selection);
      StepsClosedExactlyWhen(catalog, selection);
      forall walk
        ensures IsCycle(ModuleEdges(catalog, Chosen(catalog, selection)), Chosen(catalog, selection), walk)
           <==> ModulesInACircle(catalog, selection, walk)
        ensures IsCycle(PlannerTheorems.EdgesOf(catalog, selection), PlannerTheorems.StepsById(catalog, selection).Keys, walk)
           <==> StepsInACircle(catalog, selection, walk)
      {
        ModuleCirclesAgree(catalog, selection, walk);
        StepCirclesAgree(catalog, selection, walk);
      }
    }
  }

  // ---- The order of modules and steps ----

  // strings are compared at the first character in which they differ.
  lemma {:induction false} LessAtFirstDifference(a: string, b: string)
    ensures Less(a, b) <==> exists k: nat :: k <= |a| && k < |b| && a[..k] == b[..k] && (k == |a| || a[k] < b[k])
    decreases |a|
  {
    if a != "" && b != "" && a[0] == b[0] {
      LessAtFirstDifference(a[1..], b[1..]);
      if k: nat :| k <= |a[1..]| && k < |b[1..]| && a[1..][..k] == b[1..][..k] && (k == |a[1..]| || a[1..][k] < b[1..][k]) {
        assert a[..k + 1] == [a[0]] + a[1..][..k] && b[..k + 1] == [b[0]] + b[1..][..k];
      }
      if k: nat :| k <= |a| && k < |b| && a[..k] == b[..k] && (k == |a| || a[k] < b[k]) {
        assert k > 0;
        assert a[1..][..k - 1] == a[..k][1..] && b[1..][..k - 1] == b[..k][1..];
      }
    } else if a != "" && b != "" {
      forall k: nat | 0 < k <= |a| && k < |b|
        ensures a[..k] != b[..k]
      {
        assert a[..k][0] != b[..k][0];
      }
      if a[0] < b[0] { assert a[..0] == b[..0]; }
    } else if a == "" && b != "" {
      assert a[..0] == b[..0];
    }
  }

  const CANONICAL := ["bootstrap", "fingerprint", "devtools", "apps", "vicinae", "desktop"]

  // The named modules come first in this order, then all others by name, and verify comes last.
  lemma ModulesAreRanked(a: string, b: string)
    requires a !in CANONICAL && a != "verify" && b !in CANONICAL && b != "verify"
    ensures forall i, j :: 0 <= i < j < |CANONICAL| ==> Before(ModuleRank, CANONICAL[i], CANONICAL[j])
    ensures forall i :: 0 <= i < |CANONICAL| ==>
      Before(ModuleRank, CANONICAL[i], a) && Before(ModuleRank, CANONICAL[i], "verify")
    ensures Before(ModuleRank, a, "verify")
    ensures Before(ModuleRank, a, b) <==> Less(a, b)
  {
    hide Less;
    assert |CANONICAL| == 6;
    NamedRanks();
    assert forall i :: 0 <= i < |CANONICAL| ==> CANONICAL[i] in CANONICAL;
    assert ModuleRank(a) == ModuleRank(b) == 6 by {
      assert CANONICAL[0] == "bootstrap" && CANONICAL[1] == "fingerprint" && CANONICAL[2] == "devtools";
      assert CANONICAL[3] == "apps" && CANONICAL[4] == "vicinae" && CANONICAL[5] == "desktop";
    }
  }

  lemma NamedRanks()
    ensures forall i :: 0 <= i < |CANONICAL| ==> ModuleRank(CANONICAL[i]) == i
    ensures ModuleRank("verify") == 7
  {
    assert |"bootstrap"| == 9 && |"fingerprint"| == 11 && |"devtools"| == 8 && |"apps"| == 4 && |"vicinae"| == 7 && |"desktop"| == 7;
    assert |"verify"| == 6 && "vicinae"[0] == 'v' && "desktop"[0] == 'd';
  }

  // Of two neighbours in a plan that need not be in this order, the first is the one whose module ranks
  // lower, or, between modules of one rank, the one whose ID is less.
  lemma NeighboursAreInOrder(catalog: Catalog, selection: Selection, steps: seq<Step>, i: nat)
    requires AllUnique(catalog) && Planned(catalog, selection) == Ok(steps) && i + 1 < |steps|
    requires !Precedes(catalog, selection, steps[i].id, steps[i + 1].id)
    ensures var a, b := steps[i], steps[i + 1];
            ModuleRank(a.owner) < ModuleRank(b.owner) || (ModuleRank(a.owner) == ModuleRank(b.owner) && Less(a.id, b.id))
  {
    hide Planned, AllUnique, Precedes, Less, ModuleRank, LexLeq, PlannerTheorems.EdgesOf, PlannerTheorems.StepsById;
    PlannedIsKnown(catalog, selection);
    PlannerTheorems.PlanIsLeastOrder(catalog, selection, steps);
    PlannerTheorems.PlannedStepsById(catalog, selection, steps);
    var ids, byId := PlannerTheorems.Ids(steps), PlannerTheorems.StepsById(catalog, selection);
    var edges := PlannerTheorems.EdgesOf(catalog, selection);
    EdgesArePrecedences(catalog, selection, ids[i], ids[i + 1]);
    assert ids[i] in Elements(ids) && ids[i + 1] in Elements(ids);
    SwappedIsTopological(edges, byId.Keys, ids, i);
    DifferAt(StepRank(byId), ids, Swapped(ids, i), i);
    assert StepRank(byId)(ids[i]) == ModuleRank(steps[i].owner) && StepRank(byId)(ids[i + 1]) == ModuleRank(steps[i + 1].owner);
  }

  function Swapped(ids: seq<string>, i: nat): (r: seq<string>)
    requires i + 1 < |ids|
    ensures |r| == |ids| && r[i] == ids[i + 1] && r[i + 1] == ids[i]
    ensures forall k :: 0 <= k < |ids| && k != i && k != i + 1 ==> r[k] == ids[k]
  {
    ids[i := ids[i + 1]][i + 1 := ids[i]]
  }

  lemma SwappedIsTopological(edges: Edges, nodes: set<string>, ids: seq<string>, i: nat)
    requires IsTopological(edges, nodes, ids) && i + 1 < |ids| && (ids[i], ids[i + 1]) !in edges
    ensures IsTopological(edges, nodes, Swapped(ids, i))
  {
    var r := Swapped(ids, i);
    forall n
      ensures n in r <==> n in ids
    {
      if k :| 0 <= k < |ids| && ids[k] == n { assert r[if k == i then i + 1 else if k == i + 1 then i else k] == n; }
      if k :| 0 <= k < |r| && r[k] == n { assert ids[if k == i then i + 1 else if k == i + 1 then i else k] == n; }
    }
    assert Elements(r) == Elements(ids);
  }

  lemma {:induction false} DifferAt(rank: Rank, a: seq<string>, b: seq<string>, i: nat)
    requires LexLeq(rank, a, b) && i < |a| && i < |b| && a[..i] == b[..i] && a[i] != b[i]
    ensures Before(rank, a[i], b[i])
    decreases i
  {
    if i > 0 {
      assert a[..i][0] == a[0] && b[..i][0] == b[0];
      BeforeIsStrictTotal(rank, a[0], a[0]);
      assert a[1..][..i - 1] == a[..i][1..] && b[1..][..i - 1] == b[..i][1..];
      DifferAt(rank, a[1..], b[1..], i - 1);
    }
  }

  // ---- Which failure is reported ----

  ghost predicate FirstOf(names: seq<string>, bad: string -> bool, n: string) {
    exists i :: 0 <= i < |names| && names[i] == n && bad(n) && forall j :: 0 <= j < i ==> !bad(names[j])
  }

  lemma FirstBehind(names: seq<string>, bad: string -> bool, n: string)
    requires names != [] && !bad(names[0]) && FirstOf(names[1..], bad, n)
    ensures FirstOf(names, bad, n)
  {
    var i :| 0 <= i < |names[1..]| && names[1..][i] == n && bad(n) && forall j :: 0 <= j < i ==> !bad(names[1..][j]);
    assert names[i + 1] == n;
    forall j | 0 <= j < i + 1
      ensures !bad(names[j])
    {
      if j > 0 { assert names[j] == names[1..][j - 1]; }
    }
  }

  lemma FirstAtOnce(names: seq<string>, bad: string -> bool)
    requires names != [] && bad(names[0])
    ensures FirstOf(names, bad, names[0])
  {
  }

  lemma {:induction false} UnknownIsFirst(catalog: Catalog, field: string, names: seq<string>)
    ensures FirstUnknown(catalog, field, names).Some? ==>
      && FirstUnknown(catalog, field, names).value.UnknownSelection? && FirstUnknown(catalog, field, names).value.field == field
      && FirstOf(names, n => n !in catalog, FirstUnknown(catalog, field, names).value.name)
  {
    hide FirstOf;
    if names != [] {
      UnknownIsFirst(catalog, field, names[1..]);
      if names[0] !in catalog { FirstAtOnce(names, n => n !in catalog); }
      else if FirstUnknown(catalog, field, names[1..]).Some? {
        FirstBehind(names, n => n !in catalog, FirstUnknown(catalog, field, names[1..]).value.name);
      }
    }
  }

  // The unknown name reported is the first of its list, and the lists before hold none.
  lemma UnknownIsReported(catalog: Catalog, selection: Selection, field: string, name: string)
    requires AllUnique(catalog) && Planned(catalog, selection) == Err(UnknownSelection(field, name))
    ensures var lists := map["only" := selection.only, "with" := selection.with, "without" := selection.without];
            field in lists && FirstOf(lists[field], n => n !in catalog, name)
    ensures field != "only" ==> forall n :: n in selection.only ==> n in catalog
    ensures field == "without" ==> forall n :: n in selection.with ==> n in catalog
  {
    hide FirstOf, Chosen, Ordered, NamesExist, NeedsAreMet;
    SelectionFailsExactlyWhen(catalog, selection);
    KnownExactlyWhen(catalog, selection);
    UnknownIsFirst(catalog, "only", selection.only);
    UnknownIsFirst(catalog, "with", selection.with);
    UnknownIsFirst(catalog, "without", selection.without);
    NoUnknown(catalog, "only", selection.only);
    NoUnknown(catalog, "with", selection.with);
    assert forall n :: n in selection.only ==> n in Elements(selection.only);
    assert forall n :: n in selection.with ==> n in Elements(selection.with);
    assert |"only"| == 4 && |"with"| == 4 && |"without"| == 7 && "only"[0] == 'o' && "with"[0] == 'w';
  }

  lemma {:induction false} UnmetIsFirst(catalog: Catalog, selection: Selection, subject: string, dependencies: seq<string>)
    requires UnknownIn(catalog, selection).None?
    ensures var unmet := FirstUnmet(catalog, selection, subject, dependencies);
            && (unmet.Some? ==>
                  && unmet.value.MissingModule? && unmet.value.subject == subject
                  && FirstOf(dependencies, d => Unmet(catalog, selection, d), unmet.value.dependency))
            && (unmet.None? ==> forall d :: d in dependencies ==> !Unmet(catalog, selection, d))
  {
    hide FirstOf, Unmet, Admits, UnknownIn;
    if dependencies != [] {
      var rest := dependencies[1..];
      UnmetIsFirst(catalog, selection, subject, rest);
      AdmittedExactlyWhen(catalog, selection, dependencies[0]);
      if Unmet(catalog, selection, dependencies[0]) {
        FirstAtOnce(dependencies, d => Unmet(catalog, selection, d));
      } else if FirstUnmet(catalog, selection, subject, rest).Some? {
        FirstBehind(dependencies, d => Unmet(catalog, selection, d), FirstUnmet(catalog, selection, subject, rest).value.dependency);
      }
      assert dependencies == [dependencies[0]] + rest;
    }
  }

  lemma {:induction false} UnmetOfIsFirst(catalog: Catalog, selection: Selection, names: seq<string>) returns (i: nat)
    requires UnknownIn(catalog, selection).None? && forall n :: n in names ==> n in catalog
    requires FirstUnmetOf(catalog, selection, names).Some?
    ensures i < |names|
    ensures FirstUnmet(catalog, selection, names[i], catalog[names[i]].dependsOn) == FirstUnmetOf(catalog, selection, names)
    ensures forall j, d :: 0 <= j < i && d in catalog[names[j]].dependsOn ==> !Unmet(catalog, selection, d)
  {
    hide FirstUnmet, Unmet, UnknownIn;
    UnmetIsFirst(catalog, selection, names[0], catalog[names[0]].dependsOn);
    if FirstUnmet(catalog, selection, names[0], catalog[names[0]].dependsOn).Some? {
      i := 0;
    } else {
      var k := UnmetOfIsFirst(catalog, selection, names[1..]);
      i := k + 1;
      assert forall j :: 0 < j < |names| ==> names[j] == names[1..][j - 1];
    }
  }

  // The missing dependency reported is the first unmet one of the first selected module that has any.
  lemma MissingModuleIsReported(catalog: Catalog, selection: Selection, n: string, d: string)
    requires AllUnique(catalog) && Planned(catalog, selection) == Err(MissingModule(n, d))
    ensures Selects(catalog, selection, n) && FirstOf(catalog[n].dependsOn, e => Unmet(catalog, selection, e), d)
    ensures forall m, e :: Selects(catalog, selection, m) && Before(ModuleRank, m, n) && e in catalog[m].dependsOn ==>
      !Unmet(catalog, selection, e)
  {
    hide Chosen, Ordered, NamesExist, NeedsAreMet, Unmet, FirstOf, Before, UnknownIn, InOrder;
    SelectionFailsExactlyWhen(catalog, selection);
    KnownExactlyWhen(catalog, selection);
    OrderFailure(catalog, selection);
    var names := InOrder(ModuleRank, Chosen(catalog, selection));
    NamesKnown(catalog, selection);
    ChosenAreSelected(catalog, selection);
    InOrderMembers(ModuleRank, Chosen(catalog, selection));
    InOrderIsSorted(ModuleRank, Chosen(catalog, selection));
    MissingComesFromSelection(catalog, selection, names);
    var i := UnmetOfIsFirst(catalog, selection, names);
    UnmetIsFirst(catalog, selection, names[i], catalog[names[i]].dependsOn);
    assert names[i] == n && names[i] in names;
    forall m, e | Selects(catalog, selection, m) && Before(ModuleRank, m, n) && e in catalog[m].dependsOn
      ensures !Unmet(catalog, selection, e)
    {
      assert m in names;
      var j :| 0 <= j < |names| && names[j] == m;
      BeforeIsStrictTotal(ModuleRank, m, n);
      assert j < i;
    }
  }

  lemma MissingComesFromSelection(catalog: Catalog, selection: Selection, names: seq<string>)
    requires AllUnique(catalog) && Planned(catalog, selection).Err? && Planned(catalog, selection).error.MissingModule?
    requires UnknownIn(catalog, selection).None? && names == InOrder(ModuleRank, Chosen(catalog, selection))
    requires forall n :: n in names ==> n in catalog
    ensures FirstUnmetOf(catalog, selection, names) == Some(Planned(catalog, selection).error)
  {
    hide Ordered, Chosen, UnknownIn;
    OrderFailure(catalog, selection);
  }

  lemma {:induction false} UnmetStepIsFirst(catalog: Catalog, selection: Selection, id: string, dependencies: seq<string>)
    requires UnknownIn(catalog, selection).None?
    ensures var unmet := FirstUnmetStep(catalog, selection, id, dependencies);
            && (unmet.Some? ==>
                  && unmet.value.MissingStep? && unmet.value.subject == id
                  && FirstOf(dependencies, d => StepUnmet(catalog, selection, d), unmet.value.dependency))
            && (unmet.None? ==> forall d :: d in dependencies ==> !StepUnmet(catalog, selection, d))
  {
    hide FirstOf, StepUnmet, StepAdmits, UnknownIn;
    if dependencies != [] {
      var rest := dependencies[1..];
      UnmetStepIsFirst(catalog, selection, id, rest);
      StepAdmitsExactlyWhen(catalog, selection, dependencies[0]);
      if StepUnmet(catalog, selection, dependencies[0]) {
        FirstAtOnce(dependencies, d => StepUnmet(catalog, selection, d));
      } else if FirstUnmetStep(catalog, selection, id, rest).Some? {
        FirstBehind(dependencies, d => StepUnmet(catalog, selection, d), FirstUnmetStep(catalog, selection, id, rest).value.dependency);
      }
      assert dependencies == [dependencies[0]] + rest;
    }
  }

  lemma {:induction false} UnmetStepOfIsFirst(catalog: Catalog, selection: Selection, steps: map<string, Step>, ids: seq<string>)
    returns (i: nat)
    requires UnknownIn(catalog, selection).None? && forall id :: id in ids ==> id in steps
    requires FirstUnmetStepOf(catalog, selection, steps, ids).Some?
    ensures i < |ids|
    ensures FirstUnmetStep(catalog, selection, ids[i], steps[ids[i]].dependsOn) == FirstUnmetStepOf(catalog, selection, steps, ids)
    ensures forall j, d :: 0 <= j < i && d in steps[ids[j]].dependsOn ==> !StepUnmet(catalog, selection, d)
  {
    hide FirstUnmetStep, StepUnmet, UnknownIn;
    UnmetStepIsFirst(catalog, selection, ids[0], steps[ids[0]].dependsOn);
    if FirstUnmetStep(catalog, selection, ids[0], steps[ids[0]].dependsOn).Some? {
      i := 0;
    } else {
      var k := UnmetStepOfIsFirst(catalog, selection, steps, ids[1..]);
      i := k + 1;
      assert forall j :: 0 < j < |ids| ==> ids[j] == ids[1..][j - 1];
    }
  }

  // The missing step dependency reported is the first unmet one of the first step, by ID, that has any.
  lemma MissingStepIsReported(catalog: Catalog, selection: Selection, id: string, d: string)
    requires AllUnique(catalog) && Planned(catalog, selection) == Err(MissingStep(id, d))
    ensures exists n, s ::
      HasStep(catalog, selection, n, s) && s.id == id && FirstOf(s.dependsOn, e => StepUnmet(catalog, selection, e), d)
    ensures forall n, s, e :: HasStep(catalog, selection, n, s) && Less(s.id, id) && e in s.dependsOn ==>
      !StepUnmet(catalog, selection, e)
  {
    hide Chosen, StepUnmet, FirstOf, Less, UnknownIn, InOrder, AllUnique, HasStep, PlannerTheorems.StepsById;
    var byId := PlannerTheorems.StepsById(catalog, selection);
    var ids := InOrder(PLAIN, byId.Keys);
    InOrderMembers(PLAIN, byId.Keys);
    MissingComesFromSteps(catalog, selection, ids);
    KnownSteps(catalog, selection);
    InOrderIsSorted(PLAIN, byId.Keys);
    var i := UnmetStepOfIsFirst(catalog, selection, byId, ids);
    UnmetStepIsFirst(catalog, selection, ids[i], byId[ids[i]].dependsOn);
    assert ids[i] == id && ids[i] in ids;
    forall n, s, e | HasStep(catalog, selection, n, s) && Less(s.id, id) && e in s.dependsOn
      ensures !StepUnmet(catalog, selection, e)
    {
      assert s.id in ids;
      var j :| 0 <= j < |ids| && ids[j] == s.id;
      BeforeIsStrictTotal(PLAIN, s.id, id);
      assert j < i;
    }
  }

  lemma MissingComesFromSteps(catalog: Catalog, selection: Selection, ids: seq<string>)
    requires AllUnique(catalog) && Planned(catalog, selection).Err? && Planned(catalog, selection).error.MissingStep?
    requires var byId := PlannerTheorems.StepsById(catalog, selection);
             ids == InOrder(PLAIN, byId.Keys) && forall id :: id in ids ==> id in byId
    ensures UnknownIn(catalog, selection).None?
    ensures FirstUnmetStepOf(catalog, selection, PlannerTheorems.StepsById(catalog, selection), ids) == Some(Planned(catalog, selection).error)
  {
    hide Chosen, Emitted, FirstUnmetStepOf, FirstUnmetOf, Stuck;
    SelectionFailsExactlyWhen(catalog, selection);
    KnownExactlyWhen(catalog, selection);
    NamesKnown(catalog, selection);
    InOrderMembers(ModuleRank, Chosen(catalog, selection));
    OnlyUnmetOf(catalog, selection, InOrder(ModuleRank, Chosen(catalog, selection)));
    assert Planned(catalog, selection) == Ordered(catalog, selection);
    EmittedFailure(catalog, selection);
  }

  lemma EmittedFailure(catalog: Catalog, selection: Selection)
    requires AllUnique(catalog)
    ensures var emitted := Emitted(PlannerTheorems.StepsById(catalog, selection), PlannerTheorems.EdgesOf(catalog, selection));
            emitted.Err? ==> emitted.error.DependencyCycle?
  {
  }
}
