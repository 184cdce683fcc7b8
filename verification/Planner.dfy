// Planning: which modules are selected, and in what order their steps run
// (BuildPlan in internal/planner/plan.go).
module Planner {
  import opened Text
  import opened Topology
  import opened Plans

  datatype PlanError =
    | UnknownSelection(field: string, name: string)
    | MissingModule(subject: string, dependency: string)
    | MissingStep(subject: string, dependency: string)
    | DuplicateModule(name: string)
    | DuplicateStep(id: string)
    | DependencyCycle(nodes: seq<string>)

  /* What the definitions say, whatever order they are written in */

  datatype Definition = Definition(enabled: bool, dependsOn: seq<string>, steps: set<Step>)

  type Catalog = map<string, Definition>

  function WithOwner(name: string, step: Step): Step {
    if step.owner == "" then step.(owner := name) else step
  }

  ghost function View(m: Module): Definition {
    Definition(m.enabled, m.dependsOn, set s | s in m.steps :: WithOwner(m.name, s))
  }

  ghost predicate DistinctModules(modules: seq<Module>) {
    forall i, j :: 0 <= i < j < |modules| ==> modules[i].name != modules[j].name
  }

  ghost predicate IsStepAt(modules: seq<Module>, i: int, k: int) {
    0 <= i < |modules| && 0 <= k < |modules[i].steps|
  }

  ghost predicate DistinctSteps(modules: seq<Module>) {
    forall i, k, j, l ::
      (IsStepAt(modules, i, k) && IsStepAt(modules, j, l) && modules[i].steps[k].id == modules[j].steps[l].id)
      ==> (i == j && k == l)
  }

  ghost predicate Distinct(modules: seq<Module>) {
    DistinctModules(modules) && DistinctSteps(modules)
  }

  ghost function CatalogOf(modules: seq<Module>): Catalog
    requires DistinctModules(modules)
  {
    map m | m in modules :: m.name := View(m)
  }

  /* Selection */

  ghost function EnabledIn(catalog: Catalog): set<string> {
    set n | n in catalog && catalog[n].enabled
  }

  ghost function Chosen(catalog: Catalog, selection: Selection): set<string> {
    if selection.only != [] then Elements(selection.only)
    else EnabledIn(catalog) + Elements(selection.with) - Elements(selection.without)
  }

  // A dependency need not be selected in an only-selection, if it is enabled.
  ghost predicate Admits(catalog: Catalog, selection: Selection, dependency: string) {
    dependency in catalog &&
    (dependency in Chosen(catalog, selection) || (selection.only != [] && catalog[dependency].enabled))
  }

  ghost predicate SelectionClosed(catalog: Catalog, selection: Selection) {
    forall n, d :: n in Chosen(catalog, selection) && n in catalog && d in catalog[n].dependsOn ==>
      Admits(catalog, selection, d)
  }

  ghost function FirstUnknown(catalog: Catalog, field: string, names: seq<string>): Option<PlanError> {
    if names == [] then None
    else if names[0] !in catalog then Some(UnknownSelection(field, names[0]))
    else FirstUnknown(catalog, field, names[1..])
  }

  ghost function UnknownIn(catalog: Catalog, selection: Selection): Option<PlanError> {
    var only := FirstUnknown(catalog, "only", selection.only);
    var with := FirstUnknown(catalog, "with", selection.with);
    if only.Some? then only
    else if with.Some? then with
    else FirstUnknown(catalog, "without", selection.without)
  }

  ghost function FirstUnmet(catalog: Catalog, selection: Selection, subject: string, dependencies: seq<string>): Option<PlanError> {
    if dependencies == [] then None
    else if !Admits(catalog, selection, dependencies[0]) then Some(MissingModule(subject, dependencies[0]))
    else FirstUnmet(catalog, selection, subject, dependencies[1..])
  }

  ghost function FirstUnmetOf(catalog: Catalog, selection: Selection, names: seq<string>): Option<PlanError>
    requires forall n :: n in names ==> n in catalog
  {
    if names == [] then None
    else
      var first := FirstUnmet(catalog, selection, names[0], catalog[names[0]].dependsOn);
      if first.Some? then first else FirstUnmetOf(catalog, selection, names[1..])
  }

  /* The two graphs */

  ghost function ModuleEdges(catalog: Catalog, chosen: set<string>): Edges {
    ModuleEdgesOf(catalog, chosen, chosen)
  }

  ghost function ModuleEdgesOf(catalog: Catalog, chosen: set<string>, names: set<string>): Edges {
    set n, d | n in names && n in catalog && d in catalog[n].dependsOn && d in chosen :: (d, n)
  }

  ghost function StepsOf(catalog: Catalog, chosen: set<string>): set<Step> {
    set n, s | n in chosen && n in catalog && s in catalog[n].steps :: s
  }

  ghost function IdsOf(steps: set<Step>): set<string> {
    set s | s in steps :: s.id
  }

  ghost predicate UniqueIds(steps: set<Step>) {
    forall s, t :: s in steps && t in steps && s.id == t.id ==> s == t
  }

  ghost function ById(steps: set<Step>): map<string, Step>
    requires UniqueIds(steps)
  {
    map s | s in steps :: s.id := s
  }

  ghost function Cross(from: set<Step>, to: set<Step>): Edges {
    set a, b | a in from && b in to :: (a.id, b.id)
  }

  // Every step of a directly required module precedes every step of the module that requires it.
  ghost function RequiredBy(catalog: Catalog, chosen: set<string>, name: string, dependencies: seq<string>): Edges
    requires name in catalog
  {
    set d, e | d in dependencies && d in chosen && d in catalog && e in Cross(catalog[d].steps, catalog[name].steps) :: e
  }

  ghost function RequirementEdges(catalog: Catalog, chosen: set<string>, names: set<string>): Edges {
    set n, e | n in names && n in catalog && e in RequiredBy(catalog, chosen, n, catalog[n].dependsOn) :: e
  }

  ghost function DependencyEdges(steps: map<string, Step>, ids: set<string>): Edges {
    set id, d | id in ids && id in steps && d in steps[id].dependsOn && d in steps :: (d, id)
  }

  ghost function StepEdges(catalog: Catalog, chosen: set<string>, steps: map<string, Step>): Edges {
    RequirementEdges(catalog, chosen, chosen) + DependencyEdges(steps, steps.Keys)
  }

  ghost predicate AllUnique(catalog: Catalog) {
    UniqueIds(StepsOf(catalog, catalog.Keys))
  }

  // A step dependency must exist, and be selected too unless the selection is an only-selection.
  ghost predicate StepAdmits(catalog: Catalog, selection: Selection, dependency: string) {
    dependency in IdsOf(StepsOf(catalog, catalog.Keys)) &&
    (selection.only != [] || dependency in IdsOf(StepsOf(catalog, Chosen(catalog, selection))))
  }

  ghost function FirstUnmetStep(catalog: Catalog, selection: Selection, id: string, dependencies: seq<string>): Option<PlanError> {
    if dependencies == [] then None
    else if !StepAdmits(catalog, selection, dependencies[0]) then Some(MissingStep(id, dependencies[0]))
    else FirstUnmetStep(catalog, selection, id, dependencies[1..])
  }

  ghost function FirstUnmetStepOf(catalog: Catalog, selection: Selection, steps: map<string, Step>, ids: seq<string>): Option<PlanError>
    requires forall id :: id in ids ==> id in steps
  {
    if ids == [] then None
    else
      var first := FirstUnmetStep(catalog, selection, ids[0], steps[ids[0]].dependsOn);
      if first.Some? then first else FirstUnmetStepOf(catalog, selection, steps, ids[1..])
  }

  // stepLess: by the rank of the step's module, then by step ID.
  function StepRank(steps: map<string, Step>): Rank {
    (id: string) => if id in steps then ModuleRank(steps[id].owner) else 0
  }

  function Lookup(steps: map<string, Step>, ids: seq<string>): (r: seq<Step>)
    requires forall id :: id in ids ==> id in steps
    ensures |r| == |ids| && forall i :: 0 <= i < |r| ==> r[i] == steps[ids[i]]
  {
    seq(|ids|, i requires 0 <= i < |ids| => assert ids[i] in ids; steps[ids[i]])
  }

  /* The plan the definitions determine */

  ghost function Ordered(catalog: Catalog, selection: Selection): Result<seq<Step>, PlanError>
    requires AllUnique(catalog)
  {
    var chosen := Chosen(catalog, selection);
    var steps := ById(StepsOf(catalog, chosen));
    var edges := StepEdges(catalog, chosen, steps);
    InOrderIsSorted(PLAIN, steps.Keys);
    InOrderMembers(PLAIN, steps.Keys);
    var unmet := FirstUnmetStepOf(catalog, selection, steps, InOrder(PLAIN, steps.Keys));
    if unmet.Some? then Err(unmet.value) else Emitted(steps, edges)
  }

  ghost function Emitted(steps: map<string, Step>, edges: Edges): Result<seq<Step>, PlanError> {
    var rank := StepRank(steps);
    DrainedMembers(rank, edges, steps.Keys);
    if Stuck(rank, edges, steps.Keys) != {} then
      Err(DependencyCycle(InOrder(PLAIN, Stuck(rank, edges, steps.Keys))))
    else
      Ok(Lookup(steps, Drained(rank, edges, steps.Keys)))
  }

  lemma DrainedMembers(rank: Rank, edges: Edges, nodes: set<string>)
    ensures forall n :: n in Drained(rank, edges, nodes) ==> n in nodes
  {
    DrainedIsSound(rank, edges, nodes);
    assert forall n :: n in Drained(rank, edges, nodes) ==> n in Elements(Drained(rank, edges, nodes));
  }

  ghost function Planned(catalog: Catalog, selection: Selection): Result<seq<Step>, PlanError>
    requires AllUnique(catalog)
  {
    var unknown := UnknownIn(catalog, selection);
    if unknown.Some? then Err(unknown.value)
    else
      var chosen := Chosen(catalog, selection);
      var names := InOrder(ModuleRank, chosen);
      NamesKnown(catalog, selection);
      var unmet := FirstUnmetOf(catalog, selection, names);
      var stuck := Stuck(ModuleRank, ModuleEdges(catalog, chosen), chosen);
      if unmet.Some? then Err(unmet.value)
      else if stuck != {} then Err(DependencyCycle(InOrder(PLAIN, stuck)))
      else Ordered(catalog, selection)
  }

  ghost function PlanOf(catalog: Catalog, selection: Selection): Result<Plan, PlanError>
    requires AllUnique(catalog)
  {
    match Planned(catalog, selection)
    case Ok(steps) => Ok(Plan(selection, steps))
    case Err(error) => Err(error)
  }

  lemma InOrderMembers(rank: Rank, names: set<string>)
    ensures forall n :: n in InOrder(rank, names) <==> n in names
  {
    InOrderIsSorted(rank, names);
    assert forall n :: n in InOrder(rank, names) <==> n in Elements(InOrder(rank, names));
  }

  lemma {:induction false} NoUnknown(catalog: Catalog, field: string, names: seq<string>)
    ensures FirstUnknown(catalog, field, names).None? <==> Elements(names) <= catalog.Keys
  {
    if names != [] {
      NoUnknown(catalog, field, names[1..]);
      assert names == [names[0]] + names[1..];
      assert Elements(names) == {names[0]} + Elements(names[1..]);
    }
  }

  lemma NamesKnown(catalog: Catalog, selection: Selection)
    requires UnknownIn(catalog, selection).None?
    ensures Chosen(catalog, selection) <= catalog.Keys
    ensures forall n :: n in InOrder(ModuleRank, Chosen(catalog, selection)) ==> n in catalog
  {
    NoUnknown(catalog, "only", selection.only);
    NoUnknown(catalog, "with", selection.with);
    NoUnknown(catalog, "without", selection.without);
    InOrderMembers(ModuleRank, Chosen(catalog, selection));
  }

  lemma DistinctIsUnique(modules: seq<Module>)
    requires Distinct(modules)
    ensures AllUnique(CatalogOf(modules))
  {
    var catalog := CatalogOf(modules);
    var steps := StepsOf(catalog, catalog.Keys);
    forall s, t | s in steps && t in steps && s.id == t.id ensures s == t {
      var i, k := StepIsAt(modules, s);
      var j, l := StepIsAt(modules, t);
      assert IsStepAt(modules, i, k) && IsStepAt(modules, j, l);
    }
  }

  lemma StepIsAt(modules: seq<Module>, s: Step) returns (i: int, k: int)
    requires DistinctModules(modules) && s in StepsOf(CatalogOf(modules), CatalogOf(modules).Keys)
    ensures IsStepAt(modules, i, k) && s == WithOwner(modules[i].name, modules[i].steps[k])
  {
    var catalog := CatalogOf(modules);
    var n :| n in catalog && s in catalog[n].steps;
    var m :| m in modules && m.name == n && View(m) == catalog[n];
    var t :| t in m.steps && WithOwner(m.name, t) == s;
    i :| 0 <= i < |modules| && modules[i] == m;
    k :| 0 <= k < |m.steps| && m.steps[k] == t;
  }

  /* copyDefinitions */

  function Filled(m: Module): Module {
    m.(steps := seq(|m.steps|, k requires 0 <= k < |m.steps| => WithOwner(m.name, m.steps[k])))
  }

  ghost predicate Describes(byName: map<string, Module>, catalog: Catalog) {
    byName.Keys == catalog.Keys &&
    forall n :: n in catalog ==>
      byName[n].enabled == catalog[n].enabled && byName[n].dependsOn == catalog[n].dependsOn &&
      Elements(byName[n].steps) == catalog[n].steps
  }

  ghost function Names(modules: seq<Module>): set<string> {
    set m | m in modules :: m.name
  }

  ghost function AllIds(modules: seq<Module>): set<string> {
    set m, s | m in modules && s in m.steps :: s.id
  }

  ghost function IdsIn(steps: seq<Step>): set<string> {
    set s | s in steps :: s.id
  }

  ghost predicate NewIds(known: set<string>, steps: seq<Step>) {
    known !! IdsIn(steps) && forall l, n :: 0 <= l < n < |steps| ==> steps[l].id != steps[n].id
  }

  ghost predicate Repeats(modules: seq<Module>, error: PlanError) {
    match error
    case DuplicateModule(name) =>
      exists i, j :: 0 <= i < j < |modules| && modules[i].name == name == modules[j].name
    case DuplicateStep(id) =>
      exists i, k, j, l :: IsStepAt(modules, i, k) && IsStepAt(modules, j, l) && (i != j || k != l) &&
        modules[i].steps[k].id == id == modules[j].steps[l].id
    case _ => false
  }

  method CopyDefinitions(inputs: seq<Module>)
    returns (r: Result<(map<string, Module>, map<string, Step>), PlanError>)
    ensures r.Ok? ==> Distinct(inputs) && AllUnique(CatalogOf(inputs)) && Describes(r.value.0, CatalogOf(inputs))
    ensures r.Ok? ==> r.value.1.Keys == IdsOf(StepsOf(CatalogOf(inputs), CatalogOf(inputs).Keys))
    ensures r.Err? ==> Repeats(inputs, r.error) && !Distinct(inputs)
  {
    var modules: map<string, Module>, steps: map<string, Step> := map[], map[];
    for i := 0 to |inputs|
      invariant Copying(inputs, i, modules, steps)
    {
      var input := inputs[i];
      if input.name in modules {
        NameIsRepeated(inputs, i);
        return Err(DuplicateModule(input.name));
      }
      ghost var were := steps;
      var copied, repeated;
      copied, steps, repeated := CopySteps(inputs, i, steps, input);
      if repeated.Some? {
        return Err(DuplicateStep(repeated.value));
      }
      CopyingGrows(inputs, i, modules, were, copied, steps);
      modules := modules[input.name := Module(input.name, input.enabled, input.dependsOn, copied)];
    }
    assert inputs[..|inputs|] == inputs;
    DistinctIsUnique(inputs);
    DescribesAll(inputs, modules);
    IdsOfAll(inputs);
    r := Ok((modules, steps));
  }

  ghost predicate Copying(inputs: seq<Module>, i: nat, modules: map<string, Module>, steps: map<string, Step>)
    requires i <= |inputs|
  {
    Distinct(inputs[..i]) && modules.Keys == Names(inputs[..i]) && steps.Keys == AllIds(inputs[..i]) &&
    forall j :: 0 <= j < i ==> inputs[j].name in modules && modules[inputs[j].name] == Filled(inputs[j])
  }

  lemma CopyingGrows(inputs: seq<Module>, i: nat, modules: map<string, Module>, were: map<string, Step>,
                     copied: seq<Step>, steps: map<string, Step>)
    requires i < |inputs| && Copying(inputs, i, modules, were) && inputs[i].name !in modules
    requires copied == Filled(inputs[i]).steps && steps.Keys == AllIds(inputs[..i]) + IdsIn(inputs[i].steps)
    requires NewIds(AllIds(inputs[..i]), inputs[i].steps)
    ensures var input := inputs[i];
      Copying(inputs, i + 1, modules[input.name := Module(input.name, input.enabled, input.dependsOn, copied)], steps)
  {
    PrefixGrows(inputs, i);
    forall j | 0 <= j < i ensures inputs[j].name != inputs[i].name {
      assert inputs[..i][j] in inputs[..i];
    }
  }

  method CopySteps(ghost inputs: seq<Module>, i: nat, before: map<string, Step>, input: Module)
    returns (copied: seq<Step>, steps: map<string, Step>, repeated: Option<string>)
    requires i < |inputs| && input == inputs[i] && before.Keys == AllIds(inputs[..i])
    ensures repeated.None? ==> copied == Filled(input).steps
    ensures repeated.None? ==> steps.Keys == AllIds(inputs[..i]) + IdsIn(input.steps)
    ensures repeated.None? ==> NewIds(AllIds(inputs[..i]), input.steps)
    ensures repeated.Some? ==> Repeats(inputs, DuplicateStep(repeated.value))
  {
    copied, steps, repeated := [], before, None;
    for k := 0 to |input.steps|
      invariant copied == Filled(input).steps[..k]
      invariant steps.Keys == AllIds(inputs[..i]) + IdsIn(input.steps[..k])
      invariant NewIds(AllIds(inputs[..i]), input.steps[..k])
    {
      var step := WithOwner(input.name, input.steps[k]);
      if step.id in steps {
        StepIsRepeated(inputs, i, k);
        repeated := Some(step.id);
        return;
      }
      NewIdsGrow(AllIds(inputs[..i]), input.steps, k);
      copied := copied + [step];
      steps := steps[step.id := step];
    }
    assert input.steps[..|input.steps|] == input.steps;
  }

  lemma NewIdsGrow(known: set<string>, steps: seq<Step>, k: nat)
    requires k < |steps| && NewIds(known, steps[..k])
    requires steps[k].id !in known + IdsIn(steps[..k])
    ensures NewIds(known, steps[..k + 1])
    ensures IdsIn(steps[..k + 1]) == IdsIn(steps[..k]) + {steps[k].id}
  {
    assert steps[..k + 1] == steps[..k] + [steps[k]];
    forall l | 0 <= l < k ensures steps[l].id in IdsIn(steps[..k]) {
      assert steps[..k][l] in steps[..k];
    }
  }

  lemma NameIsRepeated(inputs: seq<Module>, i: nat)
    requires i < |inputs| && inputs[i].name in Names(inputs[..i])
    ensures Repeats(inputs, DuplicateModule(inputs[i].name))
  {
    var m :| m in inputs[..i] && m.name == inputs[i].name;
    var j :| 0 <= j < i && inputs[j] == m;
  }

  lemma StepIsRepeated(inputs: seq<Module>, i: nat, k: nat)
    requires IsStepAt(inputs, i, k)
    requires inputs[i].steps[k].id in AllIds(inputs[..i]) + IdsIn(inputs[i].steps[..k])
    ensures Repeats(inputs, DuplicateStep(inputs[i].steps[k].id))
  {
    var id := inputs[i].steps[k].id;
    if id in AllIds(inputs[..i]) {
      var m, s :| m in inputs[..i] && s in m.steps && s.id == id;
      var j :| 0 <= j < i && inputs[j] == m;
      var l :| 0 <= l < |m.steps| && m.steps[l] == s;
      assert IsStepAt(inputs, j, l);
    } else {
      var s :| s in inputs[i].steps[..k] && s.id == id;
      var l :| 0 <= l < k && inputs[i].steps[l] == s;
      assert IsStepAt(inputs, i, l);
    }
  }

  lemma PrefixGrows(inputs: seq<Module>, i: nat)
    requires i < |inputs| && DistinctModules(inputs[..i]) && DistinctSteps(inputs[..i])
    requires inputs[i].name !in Names(inputs[..i])
    requires NewIds(AllIds(inputs[..i]), inputs[i].steps)
    ensures DistinctModules(inputs[..i + 1]) && DistinctSteps(inputs[..i + 1])
    ensures Names(inputs[..i + 1]) == Names(inputs[..i]) + {inputs[i].name}
    ensures AllIds(inputs[..i + 1]) == AllIds(inputs[..i]) + IdsIn(inputs[i].steps)
  {
    var before, after := inputs[..i], inputs[..i + 1];
    assert after == before + [inputs[i]];
    forall j | 0 <= j < i ensures before[j].name != inputs[i].name {
      assert before[j] in before;
    }
    forall a, k, l | IsStepAt(before, a, k) && 0 <= l < |inputs[i].steps|
      ensures before[a].steps[k].id != inputs[i].steps[l].id
    {
      assert before[a] in before && before[a].steps[k].id in AllIds(before);
      assert inputs[i].steps[l] in inputs[i].steps && inputs[i].steps[l].id in IdsIn(inputs[i].steps);
    }
    assert forall a, k :: IsStepAt(after, a, k) && a < i ==> IsStepAt(before, a, k);
    assert Names(after) == Names(before) + {inputs[i].name};
    assert AllIds(after) == AllIds(before) + IdsIn(inputs[i].steps);
  }

  lemma DescribesAll(inputs: seq<Module>, modules: map<string, Module>)
    requires DistinctModules(inputs)
    requires modules.Keys == Names(inputs)
    requires forall j :: 0 <= j < |inputs| ==> inputs[j].name in modules && modules[inputs[j].name] == Filled(inputs[j])
    ensures Describes(modules, CatalogOf(inputs))
  {
    var catalog := CatalogOf(inputs);
    forall n | n in catalog
      ensures modules[n].enabled == catalog[n].enabled && modules[n].dependsOn == catalog[n].dependsOn
      ensures Elements(modules[n].steps) == catalog[n].steps
    {
      var m :| m in inputs && m.name == n && catalog[n] == View(m);
      var j :| 0 <= j < |inputs| && inputs[j] == m;
      FilledElements(m);
    }
  }

  lemma FilledElements(m: Module)
    ensures Elements(Filled(m).steps) == View(m).steps
  {
    forall s | s in View(m).steps ensures s in Filled(m).steps {
      var t :| t in m.steps && s == WithOwner(m.name, t);
      var k :| 0 <= k < |m.steps| && m.steps[k] == t;
      assert Filled(m).steps[k] == s;
    }
  }

  lemma IdsOfAll(inputs: seq<Module>)
    requires DistinctModules(inputs)
    ensures AllIds(inputs) == IdsOf(StepsOf(CatalogOf(inputs), CatalogOf(inputs).Keys))
  {
    var catalog := CatalogOf(inputs);
    var steps := StepsOf(catalog, catalog.Keys);
    forall id | id in AllIds(inputs) ensures id in IdsOf(steps) {
      var m, s :| m in inputs && s in m.steps && s.id == id;
      assert WithOwner(m.name, s) in View(m).steps && catalog[m.name] == View(m);
      assert WithOwner(m.name, s) in steps;
    }
    forall id | id in IdsOf(steps) ensures id in AllIds(inputs) {
      var s :| s in steps && s.id == id;
      var i, k := StepIsAt(inputs, s);
      assert inputs[i] in inputs && inputs[i].steps[k] in inputs[i].steps;
    }
  }

  /* validateSelections */

  method ValidateSelections(selection: Selection, byName: map<string, Module>, ghost catalog: Catalog)
    returns (unknown: Option<PlanError>)
    requires byName.Keys == catalog.Keys
    ensures unknown == UnknownIn(catalog, selection)
  {
    unknown := ValidateNames("only", selection.only, byName, catalog);
    if unknown.Some? { return; }
    unknown := ValidateNames("with", selection.with, byName, catalog);
    if unknown.Some? { return; }
    unknown := ValidateNames("without", selection.without, byName, catalog);
  }

  method ValidateNames(field: string, names: seq<string>, byName: map<string, Module>, ghost catalog: Catalog)
    returns (unknown: Option<PlanError>)
    requires byName.Keys == catalog.Keys
    ensures unknown == FirstUnknown(catalog, field, names)
  {
    for i := 0 to |names|
      invariant FirstUnknown(catalog, field, names) == FirstUnknown(catalog, field, names[i..])
    {
      assert names[i..][0] == names[i] && names[i..][1..] == names[i + 1..];
      if names[i] !in byName {
        return Some(UnknownSelection(field, names[i]));
      }
    }
    unknown := None;
  }

  /* selectModules */

  // The names that start out selected: the closure below never adds to them.
  method InitialSelection(byName: map<string, Module>, selection: Selection, ghost catalog: Catalog)
    returns (selected: set<string>)
    requires Describes(byName, catalog)
    ensures selected == Chosen(catalog, selection)
  {
    if selection.only != [] {
      selected := set n | n in selection.only;
      return;
    }
    selected := {};
    var names := Keys(byName.Keys);
    for i := 0 to |names|
      invariant selected == set n | n in Elements(names[..i]) && catalog[n].enabled
    {
      assert names[i] in Elements(names);
      assert names[..i + 1] == names[..i] + [names[i]];
      ElementsOfAppend(names[..i], [names[i]]);
      if byName[names[i]].enabled {
        selected := selected + {names[i]};
      }
    }
    assert names[..|names|] == names;
    assert selected == EnabledIn(catalog);
    selected := selected + (set n | n in selection.with) - (set n | n in selection.without);
  }

  lemma UnselectedIsRefused(catalog: Catalog, selection: Selection, dependency: string)
    requires selection.only == [] && dependency in catalog && dependency !in Chosen(catalog, selection)
    ensures dependency in selection.without || !catalog[dependency].enabled
    ensures !Admits(catalog, selection, dependency)
  {
  }

  method SelectModules(byName: map<string, Module>, selection: Selection, ghost catalog: Catalog)
    returns (selected: set<string>, missing: Option<PlanError>)
    requires Describes(byName, catalog) && UnknownIn(catalog, selection).None?
    ensures selected == Chosen(catalog, selection)
    ensures NamesAreKnown(catalog, selection)
    ensures missing == FirstUnmetOf(catalog, selection, InOrder(ModuleRank, Chosen(catalog, selection)))
  {
    NamesKnown(catalog, selection);
    selected := InitialSelection(byName, selection, catalog);
    ghost var order := InOrder(ModuleRank, Chosen(catalog, selection));
    if selection.only == [] {
      var changed := true;
      while changed
        invariant selected == Chosen(catalog, selection)
        invariant !changed ==> FirstUnmetOf(catalog, selection, order).None?
        decreases changed
      {
        selected, changed, missing := CloseOnce(byName, selection, selected, catalog);
        if missing.Some? {
          return;
        }
      }
    }
    missing := CheckDependencies(byName, selection, selected, catalog);
  }

  ghost predicate NamesAreKnown(catalog: Catalog, selection: Selection) {
    (forall n :: n in InOrder(ModuleRank, Chosen(catalog, selection)) ==> n in catalog) &&
    Chosen(catalog, selection) <= catalog.Keys
  }

  // One pass of the closure: a dependency outside the selection is excluded or disabled, so the pass
  // either stops on it or leaves the selection as it was.
  method CloseOnce(byName: map<string, Module>, selection: Selection, before: set<string>, ghost catalog: Catalog)
    returns (selected: set<string>, changed: bool, missing: Option<PlanError>)
    requires Describes(byName, catalog) && selection.only == [] && before == Chosen(catalog, selection)
    requires NamesAreKnown(catalog, selection)
    ensures selected == before && !changed
    ensures missing == FirstUnmetOf(catalog, selection, InOrder(ModuleRank, before))
  {
    selected, changed := before, false;
    var keys := Keys(selected);
    var names := Sort(ModuleRank, keys);
    for i := 0 to |names|
      invariant selected == before && !changed
      invariant FirstUnmetOf(catalog, selection, names) == FirstUnmetOf(catalog, selection, names[i..])
    {
      assert names[i..][0] == names[i] && names[i..][1..] == names[i + 1..];
      var grown;
      selected, grown, missing := CloseOver(byName, selection, names[i], selected, catalog);
      changed := changed || grown;
      if missing.Some? {
        return;
      }
    }
    missing := None;
  }

  method CloseOver(byName: map<string, Module>, selection: Selection, name: string, before: set<string>, ghost catalog: Catalog)
    returns (selected: set<string>, changed: bool, missing: Option<PlanError>)
    requires Describes(byName, catalog) && selection.only == [] && before == Chosen(catalog, selection)
    requires name in catalog
    ensures selected == before && !changed
    ensures missing == FirstUnmet(catalog, selection, name, catalog[name].dependsOn)
  {
    selected, changed := before, false;
    var dependencies := byName[name].dependsOn;
    for k := 0 to |dependencies|
      invariant selected == before && !changed
      invariant FirstUnmet(catalog, selection, name, dependencies) == FirstUnmet(catalog, selection, name, dependencies[k..])
    {
      var dependency := dependencies[k];
      assert dependencies[k..][0] == dependency && dependencies[k..][1..] == dependencies[k + 1..];
      if dependency !in byName {
        return selected, changed, Some(MissingModule(name, dependency));
      }
      if dependency in selected {
        continue;
      }
      UnselectedIsRefused(catalog, selection, dependency);
      if dependency in selection.without || !byName[dependency].enabled {
        return selected, changed, Some(MissingModule(name, dependency));
      }
      selected, changed := selected + {dependency}, true;
    }
    missing := None;
  }

  method CheckDependencies(byName: map<string, Module>, selection: Selection, selected: set<string>, ghost catalog: Catalog)
    returns (missing: Option<PlanError>)
    requires Describes(byName, catalog) && selected == Chosen(catalog, selection)
    requires NamesAreKnown(catalog, selection)
    ensures missing == FirstUnmetOf(catalog, selection, InOrder(ModuleRank, selected))
  {
    var keys := Keys(selected);
    var names := Sort(ModuleRank, keys);
    for i := 0 to |names|
      invariant FirstUnmetOf(catalog, selection, names) == FirstUnmetOf(catalog, selection, names[i..])
    {
      assert names[i..][0] == names[i] && names[i..][1..] == names[i + 1..];
      missing := CheckDependenciesOf(byName, selection, names[i], selected, catalog);
      if missing.Some? {
        return;
      }
    }
    missing := None;
  }

  method CheckDependenciesOf(byName: map<string, Module>, selection: Selection, name: string, selected: set<string>, ghost catalog: Catalog)
    returns (missing: Option<PlanError>)
    requires Describes(byName, catalog) && selected == Chosen(catalog, selection) && name in catalog
    ensures missing == FirstUnmet(catalog, selection, name, catalog[name].dependsOn)
  {
    var dependencies := byName[name].dependsOn;
    for k := 0 to |dependencies|
      invariant FirstUnmet(catalog, selection, name, dependencies) == FirstUnmet(catalog, selection, name, dependencies[k..])
    {
      var dependency := dependencies[k];
      assert dependencies[k..][0] == dependency && dependencies[k..][1..] == dependencies[k + 1..];
      if dependency !in byName {
        return Some(MissingModule(name, dependency));
      }
      if dependency !in selected && (selection.only == [] || !byName[dependency].enabled) {
        return Some(MissingModule(name, dependency));
      }
    }
    missing := None;
  }

  /* Graphs under construction */

  ghost function Degrees(edges: Edges, nodes: set<string>): map<string, nat> {
    map n | n in nodes :: Degree(edges, nodes, n)
  }

  ghost function Degree(edges: Edges, nodes: set<string>, n: string): nat {
    |Preds(edges, nodes, n)|
  }

  ghost function Successors(edges: Edges, nodes: set<string>): map<string, set<string>> {
    map n | n in nodes && Targets(edges, nodes, n) != {} :: Targets(edges, nodes, n)
  }

  ghost predicate Builds(edges: Edges, nodes: set<string>, successors: map<string, set<string>>, degree: map<string, nat>) {
    degree == Degrees(edges, nodes) && successors == Successors(edges, nodes)
  }

  lemma BuiltGraph(edges: Edges, nodes: set<string>)
    ensures Degrees(edges, nodes).Keys == nodes
    ensures Counts(edges, nodes, Degrees(edges, nodes)) && Lists(edges, nodes, Successors(edges, nodes))
  {
  }

  // add: an edge counts once, however often it is drawn.
  method Add(from: string, to: string, successors: map<string, set<string>>, degree: map<string, nat>,
             ghost edges: Edges, ghost nodes: set<string>)
    returns (successors': map<string, set<string>>, degree': map<string, nat>)
    requires from in nodes && to in nodes && Builds(edges, nodes, successors, degree)
    ensures Builds(edges + {(from, to)}, nodes, successors', degree')
  {
    successors', degree' := successors, degree;
    var known := Listed(successors, from);
    assert known == Targets(edges, nodes, from);
    if to in known {
      assert edges + {(from, to)} == edges;
    } else {
      successors' := successors[from := known + {to}];
      degree' := degree[to := degree[to] + 1];
      DegreesGrow(edges, nodes, from, to);
      SuccessorsGrow(edges, nodes, from, to);
    }
  }

  lemma DegreesGrow(edges: Edges, nodes: set<string>, from: string, to: string)
    requires from in nodes && to in nodes && (from, to) !in edges
    ensures Degrees(edges + {(from, to)}, nodes) == Degrees(edges, nodes)[to := Degree(edges, nodes, to) + 1]
  {
    var grown := Degrees(edges, nodes)[to := Degree(edges, nodes, to) + 1];
    var after := Degrees(edges + {(from, to)}, nodes);
    assert after.Keys == nodes == grown.Keys;
    forall n | n in nodes ensures after[n] == grown[n] {
      PredsGrow(edges, nodes, from, to, n);
    }
  }

  lemma PredsGrow(edges: Edges, nodes: set<string>, from: string, to: string, n: string)
    requires from in nodes && (from, to) !in edges
    ensures Degree(edges + {(from, to)}, nodes, n) == Degree(edges, nodes, n) + (if n == to then 1 else 0)
  {
    var before, after := Preds(edges, nodes, n), Preds(edges + {(from, to)}, nodes, n);
    if n == to {
      assert after == before + {from};
      OneMore(before, from);
    } else {
      assert after == before;
    }
  }

  lemma OneMore<T>(s: set<T>, x: T)
    requires x !in s
    ensures |s + {x}| == |s| + 1
  {
  }

  lemma SuccessorsGrow(edges: Edges, nodes: set<string>, from: string, to: string)
    requires from in nodes && to in nodes
    ensures Successors(edges + {(from, to)}, nodes) == Successors(edges, nodes)[from := Targets(edges, nodes, from) + {to}]
  {
    var before, after := Successors(edges, nodes), Successors(edges + {(from, to)}, nodes);
    TargetsGrow(edges, nodes, from, to, from);
    forall n ensures n in after <==> n in before || n == from {
      TargetsGrow(edges, nodes, from, to, n);
    }
    forall n | n in after ensures after[n] == before[from := Targets(edges, nodes, from) + {to}][n] {
      TargetsGrow(edges, nodes, from, to, n);
    }
  }

  lemma TargetsGrow(edges: Edges, nodes: set<string>, from: string, to: string, n: string)
    requires to in nodes
    ensures Targets(edges + {(from, to)}, nodes, n) == Targets(edges, nodes, n) + (if n == from then {to} else {})
  {
  }

  method EmptyGraph(nodes: set<string>) returns (successors: map<string, set<string>>, degree: map<string, nat>)
    ensures Builds({}, nodes, successors, degree)
  {
    successors, degree := map[], map n | n in nodes :: 0;
    forall n | n in nodes ensures Preds({}, nodes, n) == {} && Targets({}, nodes, n) == {} {
    }
  }

  // The names that still wait when the ready list is empty, sorted.
  method Remaining(degree: map<string, nat>, ghost stuck: set<string>) returns (names: seq<string>)
    requires stuck <= degree.Keys && forall n :: n in degree ==> (degree[n] != 0 <==> n in stuck)
    ensures names == InOrder(PLAIN, stuck)
  {
    var left := set n | n in degree.Keys && degree[n] != 0;
    assert left == stuck;
    names := SortedKeys(left);
  }

  lemma AllEmitted(rank: Rank, edges: Edges, nodes: set<string>)
    ensures |Drained(rank, edges, nodes)| == |nodes| <==> Stuck(rank, edges, nodes) == {}
  {
    var order := Drained(rank, edges, nodes);
    DrainedIsSound(rank, edges, nodes);
    NoDuplicatesLength(order);
    assert nodes == Elements(order) + Stuck(rank, edges, nodes);
  }

  /* moduleCycle */

  method ModuleCycle(selected: set<string>, byName: map<string, Module>, ghost catalog: Catalog)
    returns (cycle: seq<string>)
    requires Describes(byName, catalog) && selected <= catalog.Keys
    ensures cycle == InOrder(PLAIN, Stuck(ModuleRank, ModuleEdges(catalog, selected), selected))
  {
    var successors, degree := ModuleGraph(selected, byName, catalog);
    ghost var edges := ModuleEdges(catalog, selected);
    BuiltGraph(edges, selected);
    var order;
    order, degree := Drain(ModuleRank, selected, successors, degree, edges);
    AllEmitted(ModuleRank, edges, selected);
    if |order| == |selected| {
      cycle := [];
    } else {
      cycle := Remaining(degree, Stuck(ModuleRank, edges, selected));
    }
  }

  lemma NothingRequired(catalog: Catalog, chosen: set<string>)
    ensures ModuleEdgesOf(catalog, chosen, {}) == {} && RequirementEdges(catalog, chosen, {}) == {}
  {
  }

  method ModuleGraph(selected: set<string>, byName: map<string, Module>, ghost catalog: Catalog)
    returns (successors: map<string, set<string>>, degree: map<string, nat>)
    requires Describes(byName, catalog) && selected <= catalog.Keys
    ensures Builds(ModuleEdges(catalog, selected), selected, successors, degree)
  {
    hide Builds, ModuleEdgesOf;
    successors, degree := EmptyGraph(selected);
    NothingRequired(catalog, selected);
    var names := Keys(selected);
    assert Elements(names[..0]) == {};
    for i := 0 to |names|
      invariant Builds(ModuleEdgesOf(catalog, selected, Elements(names[..i])), selected, successors, degree)
    {
      PrefixElements(names, i);
      successors, degree := AddRequirements(names[i], selected, byName, successors, degree, Elements(names[..i]), catalog);
    }
    assert names[..|names|] == names;
  }

  method AddRequirements(name: string, selected: set<string>, byName: map<string, Module>,
                         successors: map<string, set<string>>, degree: map<string, nat>, ghost done: set<string>, ghost catalog: Catalog)
    returns (successors': map<string, set<string>>, degree': map<string, nat>)
    requires Describes(byName, catalog) && selected <= catalog.Keys && name in selected
    requires Builds(ModuleEdgesOf(catalog, selected, done), selected, successors, degree)
    ensures Builds(ModuleEdgesOf(catalog, selected, done + {name}), selected, successors', degree')
  {
    successors', degree' := successors, degree;
    ghost var edges := ModuleEdgesOf(catalog, selected, done);
    var dependencies := byName[name].dependsOn;
    for k := 0 to |dependencies|
      invariant Builds(edges, selected, successors', degree')
      invariant edges == ModuleEdgesOf(catalog, selected, done) + EdgesInto(name, selected, dependencies[..k])
    {
      var dependency := dependencies[k];
      EdgesIntoGrow(name, selected, dependencies, k);
      if dependency in selected {
        successors', degree' := Add(dependency, name, successors', degree', edges, selected);
        edges := edges + {(dependency, name)};
      }
    }
    assert dependencies[..|dependencies|] == dependencies;
    assert EdgesInto(name, selected, dependencies) == ModuleEdgesOf(catalog, selected, {name});
    ModuleEdgesGrow(catalog, selected, done, name);
  }

  ghost function EdgesInto(name: string, chosen: set<string>, dependencies: seq<string>): Edges {
    set d | d in dependencies && d in chosen :: (d, name)
  }

  lemma EdgesIntoGrow(name: string, chosen: set<string>, dependencies: seq<string>, k: nat)
    requires k < |dependencies|
    ensures EdgesInto(name, chosen, dependencies[..k + 1]) ==
      EdgesInto(name, chosen, dependencies[..k]) + if dependencies[k] in chosen then {(dependencies[k], name)} else {}
  {
    assert dependencies[..k + 1] == dependencies[..k] + [dependencies[k]];
  }

  lemma ModuleEdgesGrow(catalog: Catalog, chosen: set<string>, names: set<string>, name: string)
    ensures ModuleEdgesOf(catalog, chosen, names + {name}) ==
      ModuleEdgesOf(catalog, chosen, names) + ModuleEdgesOf(catalog, chosen, {name})
  {
  }

  /* orderSteps */

  method CollectSteps(selected: set<string>, byName: map<string, Module>, ghost catalog: Catalog)
    returns (steps: map<string, Step>)
    requires Describes(byName, catalog) && selected <= catalog.Keys && AllUnique(catalog)
    ensures UniqueIds(StepsOf(catalog, selected)) && steps == ById(StepsOf(catalog, selected))
  {
    steps := map[];
    var names := Keys(selected);
    for i := 0 to |names|
      invariant UniqueIds(StepsOf(catalog, Elements(names[..i]))) && steps == ById(StepsOf(catalog, Elements(names[..i])))
    {
      PrefixElements(names, i);
      steps := CollectFrom(names[i], byName, steps, Elements(names[..i]), catalog);
    }
    assert names[..|names|] == names;
  }

  method CollectFrom(name: string, byName: map<string, Module>, before: map<string, Step>, ghost done: set<string>, ghost catalog: Catalog)
    returns (steps: map<string, Step>)
    requires Describes(byName, catalog) && done <= catalog.Keys && name in catalog && AllUnique(catalog)
    requires UniqueIds(StepsOf(catalog, done)) && before == ById(StepsOf(catalog, done))
    ensures UniqueIds(StepsOf(catalog, done + {name})) && steps == ById(StepsOf(catalog, done + {name}))
  {
    steps := before;
    var own := byName[name].steps;
    ghost var from := StepsOf(catalog, done);
    for k := 0 to |own|
      invariant from == StepsOf(catalog, done) + Elements(own[..k])
      invariant UniqueIds(from) && steps == ById(from)
    {
      PrefixElements(own, k);
      StepsKnown(catalog, done, name);
      ByIdGrows(from, own[k]);
      steps := steps[own[k].id := own[k]];
      from := from + {own[k]};
    }
    assert own[..|own|] == own;
    StepsKnown(catalog, done, name);
  }

  lemma ByIdGrows(from: set<Step>, s: Step)
    requires UniqueIds(from + {s})
    ensures ById(from + {s}) == ById(from)[s.id := s]
  {
  }

  lemma StepsKnown(catalog: Catalog, done: set<string>, name: string)
    requires done <= catalog.Keys && name in catalog
    ensures StepsOf(catalog, done) + catalog[name].steps <= StepsOf(catalog, catalog.Keys)
    ensures StepsOf(catalog, done) + catalog[name].steps == StepsOf(catalog, done + {name})
  {
  }

  method OrderSteps(selected: set<string>, byName: map<string, Module>, allSteps: map<string, Step>, selection: Selection,
                    ghost catalog: Catalog)
    returns (r: Result<seq<Step>, PlanError>)
    requires Describes(byName, catalog) && AllUnique(catalog)
    requires allSteps.Keys == IdsOf(StepsOf(catalog, catalog.Keys))
    requires selected == Chosen(catalog, selection) && selected <= catalog.Keys
    ensures r == Ordered(catalog, selection)
  {
    var steps := CollectSteps(selected, byName, catalog);
    var ids := SortedKeys(steps.Keys);
    InOrderMembers(PLAIN, steps.Keys);
    ghost var edges := StepEdges(catalog, selected, steps);
    var successors, degree := StepGraph(selected, byName, steps, catalog);
    var missing;
    successors, degree, missing := AddDependencies(ids, steps, allSteps, selection, successors, degree, catalog);
    if missing.Some? {
      return Err(missing.value);
    }
    r := Emit(steps, successors, degree, edges);
  }

  method Emit(steps: map<string, Step>, successors: map<string, set<string>>, initial: map<string, nat>, ghost edges: Edges)
    returns (r: Result<seq<Step>, PlanError>)
    requires Builds(edges, steps.Keys, successors, initial)
    ensures r == Emitted(steps, edges)
  {
    BuiltGraph(edges, steps.Keys);
    var rank := StepRank(steps);
    var order, degree := Drain(rank, steps.Keys, successors, initial, edges);
    AllEmitted(rank, edges, steps.Keys);
    DrainedMembers(rank, edges, steps.Keys);
    if |order| != |steps| {
      var remaining := Remaining(degree, Stuck(rank, edges, steps.Keys));
      return Err(DependencyCycle(remaining));
    }
    r := Ok(Lookup(steps, order));
  }

  // The edges between the steps of required and requiring modules.
  method StepGraph(selected: set<string>, byName: map<string, Module>, steps: map<string, Step>, ghost catalog: Catalog)
    returns (successors: map<string, set<string>>, degree: map<string, nat>)
    requires Describes(byName, catalog) && selected <= catalog.Keys
    requires steps.Keys == IdsOf(StepsOf(catalog, selected))
    ensures Builds(RequirementEdges(catalog, selected, selected), steps.Keys, successors, degree)
  {
    hide Builds, RequirementEdges;
    successors, degree := EmptyGraph(steps.Keys);
    NothingRequired(catalog, selected);
    var names := Keys(selected);
    assert Elements(names[..0]) == {};
    for i := 0 to |names|
      invariant Builds(RequirementEdges(catalog, selected, Elements(names[..i])), steps.Keys, successors, degree)
    {
      PrefixElements(names, i);
      successors, degree := ConnectModule(names[i], selected, byName, steps, successors, degree, Elements(names[..i]), catalog);
    }
    assert names[..|names|] == names;
  }

  lemma RequirementEdgesGrow(catalog: Catalog, chosen: set<string>, names: set<string>, name: string)
    ensures RequirementEdges(catalog, chosen, names + {name}) ==
      RequirementEdges(catalog, chosen, names) + RequirementEdges(catalog, chosen, {name})
  {
  }

  method ConnectModule(name: string, selected: set<string>, byName: map<string, Module>, steps: map<string, Step>,
                       successors: map<string, set<string>>, degree: map<string, nat>, ghost done: set<string>, ghost catalog: Catalog)
    returns (successors': map<string, set<string>>, degree': map<string, nat>)
    requires Describes(byName, catalog) && selected <= catalog.Keys && name in selected
    requires steps.Keys == IdsOf(StepsOf(catalog, selected))
    requires Builds(RequirementEdges(catalog, selected, done), steps.Keys, successors, degree)
    ensures Builds(RequirementEdges(catalog, selected, done + {name}), steps.Keys, successors', degree')
  {
    successors', degree' := successors, degree;
    ghost var edges := RequirementEdges(catalog, selected, done);
    var dependencies := byName[name].dependsOn;
    for k := 0 to |dependencies|
      invariant Builds(edges, steps.Keys, successors', degree')
      invariant edges == RequirementEdges(catalog, selected, done) + RequiredBy(catalog, selected, name, dependencies[..k])
    {
      var dependency := dependencies[k];
      RequiredByGrows(catalog, selected, name, dependencies, k);
      if dependency in selected {
        ChosenStepIds(catalog, selected, dependency);
        ChosenStepIds(catalog, selected, name);
        successors', degree', edges :=
          ConnectSteps(byName[dependency].steps, byName[name].steps, successors', degree', edges, steps.Keys);
      }
    }
    assert dependencies[..|dependencies|] == dependencies;
    assert RequirementEdges(catalog, selected, {name}) == RequiredBy(catalog, selected, name, dependencies);
    RequirementEdgesGrow(catalog, selected, done, name);
  }

  lemma RequiredByGrows(catalog: Catalog, chosen: set<string>, name: string, dependencies: seq<string>, k: nat)
    requires name in catalog && k < |dependencies| && chosen <= catalog.Keys
    ensures RequiredBy(catalog, chosen, name, dependencies[..k + 1]) ==
      RequiredBy(catalog, chosen, name, dependencies[..k]) +
      if dependencies[k] in chosen then Cross(catalog[dependencies[k]].steps, catalog[name].steps) else {}
  {
    assert dependencies[..k + 1] == dependencies[..k] + [dependencies[k]];
  }

  lemma ChosenStepIds(catalog: Catalog, chosen: set<string>, name: string)
    requires name in chosen && name in catalog
    ensures IdsOf(catalog[name].steps) <= IdsOf(StepsOf(catalog, chosen))
  {
    assert catalog[name].steps <= StepsOf(catalog, chosen);
  }

  method ConnectSteps(from: seq<Step>, to: seq<Step>, successors: map<string, set<string>>, degree: map<string, nat>,
                      ghost edges: Edges, ghost nodes: set<string>)
    returns (successors': map<string, set<string>>, degree': map<string, nat>, ghost edges': Edges)
    requires IdsOf(Elements(from)) <= nodes && IdsOf(Elements(to)) <= nodes
    requires Builds(edges, nodes, successors, degree)
    ensures Builds(edges', nodes, successors', degree')
    ensures edges' == edges + Cross(Elements(from), Elements(to))
  {
    successors', degree', edges' := successors, degree, edges;
    for i := 0 to |from|
      invariant Builds(edges', nodes, successors', degree')
      invariant edges' == edges + Cross(Elements(from[..i]), Elements(to))
    {
      assert from[i] in Elements(from) && from[i].id in nodes;
      CrossGrows(from, i, Elements(to));
      successors', degree', edges' := ConnectStep(from[i], to, successors', degree', edges', nodes);
    }
    assert from[..|from|] == from;
  }

  lemma CrossGrows(from: seq<Step>, i: nat, to: set<Step>)
    requires i < |from|
    ensures Cross(Elements(from[..i + 1]), to) == Cross(Elements(from[..i]), to) + Cross({from[i]}, to)
  {
    assert from[..i + 1] == from[..i] + [from[i]];
    ElementsOfAppend(from[..i], [from[i]]);
  }

  method ConnectStep(from: Step, to: seq<Step>, successors: map<string, set<string>>, degree: map<string, nat>,
                     ghost edges: Edges, ghost nodes: set<string>)
    returns (successors': map<string, set<string>>, degree': map<string, nat>, ghost edges': Edges)
    requires from.id in nodes && IdsOf(Elements(to)) <= nodes
    requires Builds(edges, nodes, successors, degree)
    ensures Builds(edges', nodes, successors', degree')
    ensures edges' == edges + Cross({from}, Elements(to))
  {
    successors', degree', edges' := successors, degree, edges;
    for k := 0 to |to|
      invariant Builds(edges', nodes, successors', degree')
      invariant edges' == edges + Cross({from}, Elements(to[..k]))
    {
      assert to[k] in Elements(to) && to[k].id in nodes;
      CrossOneGrows(from, to, k);
      successors', degree' := Add(from.id, to[k].id, successors', degree', edges', nodes);
      edges' := edges' + {(from.id, to[k].id)};
    }
    assert to[..|to|] == to;
  }

  lemma CrossOneGrows(from: Step, to: seq<Step>, k: nat)
    requires k < |to|
    ensures Cross({from}, Elements(to[..k + 1])) == Cross({from}, Elements(to[..k])) + {(from.id, to[k].id)}
  {
    assert to[..k + 1] == to[..k] + [to[k]];
    ElementsOfAppend(to[..k], [to[k]]);
  }

  // The edges the steps name themselves, in the order of their IDs; the first dependency that is
  // not there stops the plan.
  method AddDependencies(ids: seq<string>, steps: map<string, Step>, allSteps: map<string, Step>, selection: Selection,
                         successors: map<string, set<string>>, degree: map<string, nat>, ghost catalog: Catalog)
    returns (successors': map<string, set<string>>, degree': map<string, nat>, missing: Option<PlanError>)
    requires Elements(ids) == steps.Keys && forall id :: id in ids ==> id in steps
    requires steps.Keys == IdsOf(StepsOf(catalog, Chosen(catalog, selection)))
    requires allSteps.Keys == IdsOf(StepsOf(catalog, catalog.Keys))
    requires Builds(RequirementEdges(catalog, Chosen(catalog, selection), Chosen(catalog, selection)), steps.Keys, successors, degree)
    ensures missing == FirstUnmetStepOf(catalog, selection, steps, ids)
    ensures missing.None? ==> Builds(StepEdges(catalog, Chosen(catalog, selection), steps), steps.Keys, successors', degree')
  {
    successors', degree', missing := successors, degree, None;
    ghost var base := RequirementEdges(catalog, Chosen(catalog, selection), Chosen(catalog, selection));
    ghost var edges := base;
    for i := 0 to |ids|
      invariant missing.None?
      invariant FirstUnmetStepOf(catalog, selection, steps, ids) == FirstUnmetStepOf(catalog, selection, steps, ids[i..])
      invariant Builds(edges, steps.Keys, successors', degree')
      invariant edges == base + DependencyEdges(steps, Elements(ids[..i]))
    {
      assert ids[i..][0] == ids[i] && ids[i..][1..] == ids[i + 1..];
      successors', degree', missing, edges :=
        AddDependenciesOf(ids[i], steps, allSteps, selection, successors', degree', edges, catalog);
      if missing.Some? {
        return;
      }
      DependencyEdgesGrow(steps, ids, i);
    }
    assert ids[..|ids|] == ids;
  }

  lemma DependencyEdgesGrow(steps: map<string, Step>, ids: seq<string>, i: nat)
    requires i < |ids|
    ensures DependencyEdges(steps, Elements(ids[..i + 1])) == DependencyEdges(steps, Elements(ids[..i])) + DependencyEdges(steps, {ids[i]})
  {
    assert ids[..i + 1] == ids[..i] + [ids[i]];
    ElementsOfAppend(ids[..i], [ids[i]]);
  }

  ghost function DependenciesInto(steps: map<string, Step>, id: string, dependencies: seq<string>): Edges {
    set d | d in dependencies && d in steps :: (d, id)
  }

  method AddDependenciesOf(id: string, steps: map<string, Step>, allSteps: map<string, Step>, selection: Selection,
                           successors: map<string, set<string>>, degree: map<string, nat>, ghost edges: Edges, ghost catalog: Catalog)
    returns (successors': map<string, set<string>>, degree': map<string, nat>, missing: Option<PlanError>, ghost edges': Edges)
    requires id in steps
    requires steps.Keys == IdsOf(StepsOf(catalog, Chosen(catalog, selection)))
    requires allSteps.Keys == IdsOf(StepsOf(catalog, catalog.Keys))
    requires Builds(edges, steps.Keys, successors, degree)
    ensures missing == FirstUnmetStep(catalog, selection, id, steps[id].dependsOn)
    ensures missing.None? ==> Builds(edges', steps.Keys, successors', degree')
    ensures missing.None? ==> edges' == edges + DependencyEdges(steps, {id})
  {
    successors', degree', missing, edges' := successors, degree, None, edges;
    var dependencies := steps[id].dependsOn;
    for k := 0 to |dependencies|
      invariant FirstUnmetStep(catalog, selection, id, dependencies) == FirstUnmetStep(catalog, selection, id, dependencies[k..])
      invariant Builds(edges', steps.Keys, successors', degree')
      invariant edges' == edges + DependenciesInto(steps, id, dependencies[..k])
    {
      var dependency := dependencies[k];
      assert dependencies[k..][0] == dependency && dependencies[k..][1..] == dependencies[k + 1..];
      DependenciesIntoGrow(steps, id, dependencies, k);
      if dependency !in allSteps {
        missing := Some(MissingStep(id, dependency));
        return;
      }
      if dependency !in steps {
        if selection.only != [] {
          continue;
        }
        missing := Some(MissingStep(id, dependency));
        return;
      }
      successors', degree' := Add(dependency, id, successors', degree', edges', steps.Keys);
      edges' := edges' + {(dependency, id)};
    }
    assert dependencies[..|dependencies|] == dependencies;
    DependenciesIntoStep(steps, id);
  }

  lemma DependenciesIntoGrow(steps: map<string, Step>, id: string, dependencies: seq<string>, k: nat)
    requires k < |dependencies|
    ensures DependenciesInto(steps, id, dependencies[..k + 1]) ==
      DependenciesInto(steps, id, dependencies[..k]) + if dependencies[k] in steps then {(dependencies[k], id)} else {}
  {
    assert dependencies[..k + 1] == dependencies[..k] + [dependencies[k]];
  }

  lemma DependenciesIntoStep(steps: map<string, Step>, id: string)
    requires id in steps
    ensures DependenciesInto(steps, id, steps[id].dependsOn) == DependencyEdges(steps, {id})
  {
  }

  /* BuildPlan */

  // Whatever order the maps are walked in, the plan is the one the definitions determine.
  method BuildPlan(modules: seq<Module>, selection: Selection) returns (r: Result<Plan, PlanError>)
    ensures !Distinct(modules) ==> r.Err? && Repeats(modules, r.error)
    ensures Distinct(modules) ==> AllUnique(CatalogOf(modules)) && r == PlanOf(CatalogOf(modules), selection)
  {
    var copies := CopyDefinitions(modules);
    if copies.Err? {
      return Err(copies.error);
    }
    var (byName, allSteps) := copies.value;
    ghost var catalog := CatalogOf(modules);
    var unknown := ValidateSelections(selection, byName, catalog);
    if unknown.Some? {
      return Err(unknown.value);
    }
    var selected, missing := SelectModules(byName, selection, catalog);
    if missing.Some? {
      return Err(missing.value);
    }
    var cycle := ModuleCycle(selected, byName, catalog);
    InOrderIsSorted(PLAIN, Stuck(ModuleRank, ModuleEdges(catalog, selected), selected));
    if cycle != [] {
      return Err(DependencyCycle(cycle));
    }
    var ordered := OrderSteps(selected, byName, allSteps, selection, catalog);
    match ordered
    case Err(error) => r := Err(error);
    case Ok(steps) => r := Ok(Plan(selection, steps));
  }
}
