// What a plan promises: soundness, completeness and independence of the order in which the
// definitions are written or the maps are walked.
module PlannerTheorems {
  import opened Text
  import opened Topology
  import opened Plans
  import opened Planner

  /* Selection */

  lemma {:induction false} UnmetExactlyWhen(catalog: Catalog, selection: Selection, subject: string, dependencies: seq<string>)
    ensures FirstUnmet(catalog, selection, subject, dependencies).None? <==>
      forall d :: d in dependencies ==> Admits(catalog, selection, d)
  {
    if dependencies != [] {
      UnmetExactlyWhen(catalog, selection, subject, dependencies[1..]);
      assert dependencies == [dependencies[0]] + dependencies[1..];
    }
  }

  lemma {:induction false} UnmetOfExactlyWhen(catalog: Catalog, selection: Selection, names: seq<string>)
    requires forall n :: n in names ==> n in catalog
    ensures FirstUnmetOf(catalog, selection, names).None? <==>
      forall n, d :: n in names && d in catalog[n].dependsOn ==> Admits(catalog, selection, d)
  {
    if names != [] {
      UnmetExactlyWhen(catalog, selection, names[0], catalog[names[0]].dependsOn);
      UnmetOfExactlyWhen(catalog, selection, names[1..]);
      assert names == [names[0]] + names[1..];
    }
  }

  /* Ordering */

  ghost function StepsById(catalog: Catalog, selection: Selection): map<string, Step>
    requires AllUnique(catalog)
  {
    ById(StepsOf(catalog, Chosen(catalog, selection)))
  }

  ghost function EdgesOf(catalog: Catalog, selection: Selection): Edges
    requires AllUnique(catalog)
  {
    StepEdges(catalog, Chosen(catalog, selection), StepsById(catalog, selection))
  }

  ghost function Ids(steps: seq<Step>): seq<string> {
    seq(|steps|, i requires 0 <= i < |steps| => steps[i].id)
  }

  // No topological order is lexicographically smaller.
  ghost predicate IsLeastOrder(rank: Rank, edges: Edges, nodes: set<string>, order: seq<string>) {
    IsTopological(edges, nodes, order) &&
    forall other :: IsTopological(edges, nodes, other) ==> LexLeq(rank, order, other)
  }

  lemma IdsOfLookup(steps: map<string, Step>, ids: seq<string>)
    requires forall id :: id in ids ==> id in steps
    requires forall id :: id in steps ==> steps[id].id == id
    ensures Ids(Lookup(steps, ids)) == ids
  {
  }

  // A plan is the least of all the orders its edges allow, and the only one as small.
  lemma PlanIsLeastOrder(catalog: Catalog, selection: Selection, steps: seq<Step>)
    requires AllUnique(catalog) && Planned(catalog, selection) == Ok(steps)
    ensures var edges := EdgesOf(catalog, selection); var byId := StepsById(catalog, selection);
      IsLeastOrder(StepRank(byId), edges, byId.Keys, Ids(steps)) &&
      (forall other :: IsLeastOrder(StepRank(byId), edges, byId.Keys, other) ==> other == Ids(steps))
    ensures Elements(steps) == StepsOf(catalog, Chosen(catalog, selection)) && NoDuplicates(steps)
  {
    var edges, byId := EdgesOf(catalog, selection), StepsById(catalog, selection);
    var order := PlanIsDrained(catalog, selection, steps);
    DrainedIsLeastOrder(StepRank(byId), edges, byId.Keys);
    PlanHoldsSelected(catalog, selection, order);
  }

  lemma PlanIsDrained(catalog: Catalog, selection: Selection, steps: seq<Step>) returns (order: seq<string>)
    requires AllUnique(catalog) && Planned(catalog, selection) == Ok(steps)
    ensures var edges, byId := EdgesOf(catalog, selection), StepsById(catalog, selection);
      order == Drained(StepRank(byId), edges, byId.Keys) && Stuck(StepRank(byId), edges, byId.Keys) == {} &&
      (forall id :: id in order ==> id in byId) && steps == Lookup(byId, order) && Ids(steps) == order
  {
    hide EdgesOf, StepEdges, Chosen, ById, Planned;
    var edges, byId := EdgesOf(catalog, selection), StepsById(catalog, selection);
    order := Drained(StepRank(byId), edges, byId.Keys);
    DrainedMembers(StepRank(byId), edges, byId.Keys);
    ByIdMembers(StepsOf(catalog, Chosen(catalog, selection)));
    IdsOfLookup(byId, order);
    PlanIsEmitted(catalog, selection, steps);
  }

  lemma PlanIsEmitted(catalog: Catalog, selection: Selection, steps: seq<Step>)
    requires AllUnique(catalog) && Planned(catalog, selection) == Ok(steps)
    ensures Emitted(StepsById(catalog, selection), EdgesOf(catalog, selection)) == Ok(steps)
  {
    hide Emitted;
    assert Ordered(catalog, selection) == Ok(steps);
  }

  lemma DrainedIsLeastOrder(rank: Rank, edges: Edges, nodes: set<string>)
    requires Stuck(rank, edges, nodes) == {}
    ensures IsLeastOrder(rank, edges, nodes, Drained(rank, edges, nodes))
    ensures forall other :: IsLeastOrder(rank, edges, nodes, other) ==> other == Drained(rank, edges, nodes)
  {
    SucceedsExactlyWhenAcyclic(rank, edges, nodes);
    forall other | IsTopological(edges, nodes, other) ensures LexLeq(rank, Drained(rank, edges, nodes), other) {
      DrainedIsLeast(rank, edges, nodes, other);
    }
    forall other | IsLeastOrder(rank, edges, nodes, other) ensures other == Drained(rank, edges, nodes) {
      LeastOrderIsUnique(rank, edges, nodes, other);
    }
  }

  lemma PlanHoldsSelected(catalog: Catalog, selection: Selection, order: seq<string>)
    requires AllUnique(catalog)
    requires NoDuplicates(order) && Elements(order) == StepsById(catalog, selection).Keys
    requires forall id :: id in order ==> id in StepsById(catalog, selection)
    ensures var steps := Lookup(StepsById(catalog, selection), order);
      Elements(steps) == StepsOf(catalog, Chosen(catalog, selection)) && NoDuplicates(steps)
  {
    var byId := StepsById(catalog, selection);
    var steps := Lookup(byId, order);
    ByIdMembers(StepsOf(catalog, Chosen(catalog, selection)));
    forall i | 0 <= i < |steps| ensures steps[i].id == order[i] && steps[i] in StepsOf(catalog, Chosen(catalog, selection)) {
      assert order[i] in order;
    }
    forall s | s in StepsOf(catalog, Chosen(catalog, selection)) ensures s in steps {
      assert s.id in Elements(order);
      var i :| 0 <= i < |order| && order[i] == s.id;
      assert steps[i] == s;
    }
  }

  lemma ByIdMembers(steps: set<Step>)
    requires UniqueIds(steps)
    ensures forall id :: id in ById(steps) ==> ById(steps)[id].id == id && ById(steps)[id] in steps
    ensures forall s :: s in steps ==> s.id in ById(steps) && ById(steps)[s.id] == s
  {
  }

  ghost predicate ComesBefore(steps: seq<Step>, a: string, b: string) {
    exists i, j :: 0 <= i < j < |steps| && steps[i].id == a && steps[j].id == b
  }

  lemma EdgeIsRespected(edges: Edges, nodes: set<string>, steps: seq<Step>, a: string, b: string)
    requires IsTopological(edges, nodes, Ids(steps)) && (a, b) in edges && a in nodes && b in nodes
    ensures ComesBefore(steps, a, b)
  {
    var ids := Ids(steps);
    assert a in Elements(ids) && b in Elements(ids);
    var i :| 0 <= i < |ids| && ids[i] == a;
    var j :| 0 <= j < |ids| && ids[j] == b;
    assert (ids[i], ids[j]) in edges;
    assert i < j;
    assert steps[i].id == a && steps[j].id == b;
  }

  // Every step of a directly required selected module runs before every step that requires it.
  lemma PlanRespectsModules(catalog: Catalog, selection: Selection, steps: seq<Step>, name: string, required: string, a: Step, b: Step)
    requires AllUnique(catalog) && Planned(catalog, selection) == Ok(steps)
    requires name in Chosen(catalog, selection) && required in Chosen(catalog, selection)
    requires name in catalog && required in catalog && required in catalog[name].dependsOn
    requires a in catalog[required].steps && b in catalog[name].steps
    ensures ComesBefore(steps, a.id, b.id)
  {
    PlanIsLeastOrder(catalog, selection, steps);
    var chosen := Chosen(catalog, selection);
    assert a in StepsOf(catalog, chosen) && b in StepsOf(catalog, chosen);
    assert (a.id, b.id) in Cross(catalog[required].steps, catalog[name].steps);
    assert (a.id, b.id) in RequiredBy(catalog, chosen, name, catalog[name].dependsOn);
    EdgeIsRespected(EdgesOf(catalog, selection), StepsById(catalog, selection).Keys, steps, a.id, b.id);
  }

  // Every dependency a step names runs before it, if it is in the plan.
  lemma PlanRespectsSteps(catalog: Catalog, selection: Selection, steps: seq<Step>, j: nat, dependency: string)
    requires AllUnique(catalog) && Planned(catalog, selection) == Ok(steps)
    requires j < |steps| && dependency in steps[j].dependsOn && dependency in Ids(steps)
    ensures ComesBefore(steps, dependency, steps[j].id)
  {
    hide *;
    PlanIsTopological(catalog, selection, steps);
    DependencyIsEdge(catalog, selection, steps, j, dependency);
    EdgeIsRespected(EdgesOf(catalog, selection), StepsById(catalog, selection).Keys, steps, dependency, steps[j].id);
  }

  lemma PlanIsTopological(catalog: Catalog, selection: Selection, steps: seq<Step>)
    requires AllUnique(catalog) && Planned(catalog, selection) == Ok(steps)
    ensures IsTopological(EdgesOf(catalog, selection), StepsById(catalog, selection).Keys, Ids(steps))
  {
    PlanIsLeastOrder(catalog, selection, steps);
  }

  lemma PlannedStepsById(catalog: Catalog, selection: Selection, steps: seq<Step>)
    requires AllUnique(catalog) && Planned(catalog, selection) == Ok(steps)
    ensures Elements(Ids(steps)) == StepsById(catalog, selection).Keys
    ensures forall j :: 0 <= j < |steps| ==>
      steps[j].id in StepsById(catalog, selection) && StepsById(catalog, selection)[steps[j].id] == steps[j]
  {
    PlanIsLeastOrder(catalog, selection, steps);
    forall j | 0 <= j < |steps| ensures steps[j] in Elements(steps) {
    }
  }

  lemma DependencyIsEdge(catalog: Catalog, selection: Selection, steps: seq<Step>, j: nat, dependency: string)
    requires AllUnique(catalog) && Planned(catalog, selection) == Ok(steps)
    requires j < |steps| && dependency in steps[j].dependsOn && dependency in Ids(steps)
    ensures var byId := StepsById(catalog, selection);
            dependency in byId && steps[j].id in byId && (dependency, steps[j].id) in EdgesOf(catalog, selection)
  {
    hide Planned, AllUnique, Ids, StepsById;
    PlannedStepsById(catalog, selection, steps);
    var byId := StepsById(catalog, selection);
    assert dependency in Elements(Ids(steps));
    assert (dependency, steps[j].id) in DependencyEdges(byId, byId.Keys);
  }

  lemma {:induction false} UnmetStepExactlyWhen(catalog: Catalog, selection: Selection, id: string, dependencies: seq<string>)
    ensures FirstUnmetStep(catalog, selection, id, dependencies).None? <==>
      forall d :: d in dependencies ==> StepAdmits(catalog, selection, d)
  {
    if dependencies != [] {
      UnmetStepExactlyWhen(catalog, selection, id, dependencies[1..]);
      assert dependencies == [dependencies[0]] + dependencies[1..];
    }
  }

  lemma {:induction false} UnmetStepOfExactlyWhen(catalog: Catalog, selection: Selection, steps: map<string, Step>, ids: seq<string>)
    requires forall id :: id in ids ==> id in steps
    ensures FirstUnmetStepOf(catalog, selection, steps, ids).None? <==>
      forall id, d :: id in ids && d in steps[id].dependsOn ==> StepAdmits(catalog, selection, d)
  {
    if ids != [] {
      UnmetStepExactlyWhen(catalog, selection, ids[0], steps[ids[0]].dependsOn);
      UnmetStepOfExactlyWhen(catalog, selection, steps, ids[1..]);
      assert ids == [ids[0]] + ids[1..];
    }
  }

  ghost predicate Acyclic(edges: Edges, nodes: set<string>) {
    !exists walk :: IsCycle(edges, nodes, walk)
  }

  ghost predicate StepsClosed(catalog: Catalog, selection: Selection) {
    forall s, d :: s in StepsOf(catalog, Chosen(catalog, selection)) && d in s.dependsOn ==> StepAdmits(catalog, selection, d)
  }

  lemma OrderExistsExactlyWhen(catalog: Catalog, selection: Selection)
    requires AllUnique(catalog)
    ensures Ordered(catalog, selection).Ok? <==>
      StepsClosed(catalog, selection) && Acyclic(EdgesOf(catalog, selection), StepsById(catalog, selection).Keys)
  {
    var byId := StepsById(catalog, selection);
    InOrderMembers(PLAIN, byId.Keys);
    assert FirstUnmetStepOf(catalog, selection, byId, InOrder(PLAIN, byId.Keys)).None? <==> StepsClosed(catalog, selection) by {
      UnmetStepOfExactlyWhen(catalog, selection, byId, InOrder(PLAIN, byId.Keys));
      StepsClosedById(catalog, selection);
    }
    assert Emitted(byId, EdgesOf(catalog, selection)).Ok? <==> Acyclic(EdgesOf(catalog, selection), byId.Keys) by {
      SucceedsExactlyWhenAcyclic(StepRank(byId), EdgesOf(catalog, selection), byId.Keys);
    }
  }

  lemma StepsClosedById(catalog: Catalog, selection: Selection)
    requires AllUnique(catalog)
    ensures var byId := StepsById(catalog, selection);
      StepsClosed(catalog, selection) <==> forall id, d :: id in byId && d in byId[id].dependsOn ==> StepAdmits(catalog, selection, d)
  {
    var steps := StepsOf(catalog, Chosen(catalog, selection));
    var byId := ById(steps);
    ByIdMembers(steps);
    if forall id, d :: id in byId && d in byId[id].dependsOn ==> StepAdmits(catalog, selection, d) {
      forall s, d | s in steps && d in s.dependsOn ensures StepAdmits(catalog, selection, d) {
        assert byId[s.id] == s;
      }
    }
  }

  // Planning succeeds exactly when every name is known, every dependency is met, and neither the
  // modules nor the steps wait for each other in a circle.
  lemma PlanExistsExactlyWhen(catalog: Catalog, selection: Selection)
    requires AllUnique(catalog)
    ensures Planned(catalog, selection).Ok? <==>
      UnknownIn(catalog, selection).None? && SelectionClosed(catalog, selection) &&
      Acyclic(ModuleEdges(catalog, Chosen(catalog, selection)), Chosen(catalog, selection)) &&
      StepsClosed(catalog, selection) &&
      Acyclic(EdgesOf(catalog, selection), StepsById(catalog, selection).Keys)
  {
    var chosen := Chosen(catalog, selection);
    if UnknownIn(catalog, selection).None? {
      NamesKnown(catalog, selection);
      InOrderMembers(ModuleRank, chosen);
      UnmetOfExactlyWhen(catalog, selection, InOrder(ModuleRank, chosen));
      SucceedsExactlyWhenAcyclic(ModuleRank, ModuleEdges(catalog, chosen), chosen);
      OrderExistsExactlyWhen(catalog, selection);
    }
  }

  // The nodes of a reported cycle are the largest set whose members all wait for one of the set:
  // of the modules, or, where those have an order, of the steps.
  lemma CycleIsLargestDeadlock(catalog: Catalog, selection: Selection, nodes: seq<string>)
    requires AllUnique(catalog) && Planned(catalog, selection) == Err(DependencyCycle(nodes))
    ensures Increasing(PLAIN, nodes) && nodes != []
    ensures var moduleEdges := ModuleEdges(catalog, Chosen(catalog, selection));
      IsLargestDeadlock(moduleEdges, Chosen(catalog, selection), Elements(nodes)) ||
      (IsLargestDeadlock(moduleEdges, Chosen(catalog, selection), {}) &&
       IsLargestDeadlock(EdgesOf(catalog, selection), StepsById(catalog, selection).Keys, Elements(nodes)))
  {
    var chosen, byId := Chosen(catalog, selection), StepsById(catalog, selection);
    NoErrorIsACycle(catalog, selection);
    NamesKnown(catalog, selection);
    var stuck := Stuck(ModuleRank, ModuleEdges(catalog, chosen), chosen);
    StuckIsLargestDeadlock(ModuleRank, ModuleEdges(catalog, chosen), chosen);
    if stuck != {} {
      InOrderIsSorted(PLAIN, stuck);
    } else {
      StepCycleIsLargestDeadlock(catalog, selection, nodes);
    }
  }

  lemma StepCycleIsLargestDeadlock(catalog: Catalog, selection: Selection, nodes: seq<string>)
    requires AllUnique(catalog) && Ordered(catalog, selection) == Err(DependencyCycle(nodes))
    ensures Increasing(PLAIN, nodes) && nodes != []
    ensures IsLargestDeadlock(EdgesOf(catalog, selection), StepsById(catalog, selection).Keys, Elements(nodes))
  {
    var byId := StepsById(catalog, selection);
    InOrderMembers(PLAIN, byId.Keys);
    UnmetStepKind(catalog, selection, byId, InOrder(PLAIN, byId.Keys));
    var stuck := Stuck(StepRank(byId), EdgesOf(catalog, selection), byId.Keys);
    StuckIsLargestDeadlock(StepRank(byId), EdgesOf(catalog, selection), byId.Keys);
    InOrderIsSorted(PLAIN, stuck);
  }

  ghost predicate IsLargestDeadlock(edges: Edges, nodes: set<string>, names: set<string>) {
    names <= nodes && Deadlocked(edges, names) &&
    forall other :: other <= nodes && Deadlocked(edges, other) ==> other <= names
  }

  lemma StuckIsLargestDeadlock(rank: Rank, edges: Edges, nodes: set<string>)
    ensures IsLargestDeadlock(edges, nodes, Stuck(rank, edges, nodes))
  {
    StuckIsDeadlocked(rank, edges, nodes);
    forall other | other <= nodes && Deadlocked(edges, other) ensures other <= Stuck(rank, edges, nodes) {
      StuckIsLargest(rank, edges, nodes, other);
    }
  }

  lemma NoErrorIsACycle(catalog: Catalog, selection: Selection)
    ensures IsNoneOr(UnknownIn(catalog, selection), (e: PlanError) => e.UnknownSelection?)
    ensures UnknownIn(catalog, selection).None? ==>
      NamesAreKnown(catalog, selection) &&
      IsNoneOr(FirstUnmetOf(catalog, selection, InOrder(ModuleRank, Chosen(catalog, selection))), (e: PlanError) => e.MissingModule?)
  {
    UnknownKind(catalog, "only", selection.only);
    UnknownKind(catalog, "with", selection.with);
    UnknownKind(catalog, "without", selection.without);
    if UnknownIn(catalog, selection).None? {
      NamesKnown(catalog, selection);
      UnmetKind(catalog, selection, InOrder(ModuleRank, Chosen(catalog, selection)));
    }
  }

  predicate IsNoneOr(error: Option<PlanError>, kind: PlanError -> bool) {
    error.None? || kind(error.value)
  }

  lemma UnknownKind(catalog: Catalog, field: string, names: seq<string>)
    ensures FirstUnknown(catalog, field, names).Some? ==> FirstUnknown(catalog, field, names).value.UnknownSelection?
  {
  }

  lemma UnmetOneKind(catalog: Catalog, selection: Selection, subject: string, dependencies: seq<string>)
    ensures IsNoneOr(FirstUnmet(catalog, selection, subject, dependencies), (e: PlanError) => e.MissingModule?)
  {
  }

  lemma {:induction false} UnmetKind(catalog: Catalog, selection: Selection, names: seq<string>)
    requires forall n :: n in names ==> n in catalog
    ensures IsNoneOr(FirstUnmetOf(catalog, selection, names), (e: PlanError) => e.MissingModule?)
  {
    if names != [] {
      UnmetOneKind(catalog, selection, names[0], catalog[names[0]].dependsOn);
      UnmetKind(catalog, selection, names[1..]);
    }
  }

  lemma UnmetOneStepKind(catalog: Catalog, selection: Selection, id: string, dependencies: seq<string>)
    ensures IsNoneOr(FirstUnmetStep(catalog, selection, id, dependencies), (e: PlanError) => e.MissingStep?)
  {
  }

  lemma {:induction false} UnmetStepKind(catalog: Catalog, selection: Selection, steps: map<string, Step>, ids: seq<string>)
    requires forall id :: id in ids ==> id in steps
    ensures IsNoneOr(FirstUnmetStepOf(catalog, selection, steps, ids), (e: PlanError) => e.MissingStep?)
  {
    if ids != [] {
      UnmetOneStepKind(catalog, selection, ids[0], steps[ids[0]].dependsOn);
      UnmetStepKind(catalog, selection, steps, ids[1..]);
    }
  }

  /* Independence of the order in which definitions are written */

  ghost predicate SameModule(a: Module, b: Module) {
    a.name == b.name && a.enabled == b.enabled && a.dependsOn == b.dependsOn && multiset(a.steps) == multiset(b.steps)
  }

  ghost predicate Covers(a: seq<Module>, b: seq<Module>) {
    forall m :: m in a ==> exists n :: n in b && SameModule(m, n)
  }

  // The same modules in another order, with the steps of each in another order.
  ghost predicate Shuffled(a: seq<Module>, b: seq<Module>) {
    Covers(a, b) && Covers(b, a)
  }

  lemma PlanIgnoresDefinitionOrder(a: seq<Module>, b: seq<Module>, selection: Selection)
    requires Distinct(a) && Distinct(b) && Shuffled(a, b)
    ensures AllUnique(CatalogOf(a)) && CatalogOf(a) == CatalogOf(b)
    ensures PlanOf(CatalogOf(a), selection) == PlanOf(CatalogOf(b), selection)
  {
    DistinctIsUnique(a);
    ShuffledCatalog(a, b);
  }

  lemma ShuffledCatalog(a: seq<Module>, b: seq<Module>)
    requires DistinctModules(a) && DistinctModules(b) && Shuffled(a, b)
    ensures CatalogOf(a) == CatalogOf(b)
  {
    CoveredEntries(a, b);
    CoveredEntries(b, a);
  }

  lemma CoveredEntries(a: seq<Module>, b: seq<Module>)
    requires DistinctModules(a) && DistinctModules(b) && Covers(a, b)
    ensures forall n :: n in CatalogOf(a) ==> n in CatalogOf(b) && CatalogOf(a)[n] == CatalogOf(b)[n]
  {
    forall n | n in CatalogOf(a) ensures n in CatalogOf(b) && CatalogOf(a)[n] == CatalogOf(b)[n] {
      var m :| m in a && m.name == n && CatalogOf(a)[n] == View(m);
      var other :| other in b && SameModule(m, other);
      SameSteps(m, other);
      assert CatalogOf(b)[n] == View(other);
    }
  }

  lemma SameSteps(a: Module, b: Module)
    requires SameModule(a, b)
    ensures View(a) == View(b)
  {
    forall s ensures s in a.steps <==> s in b.steps {
      assert s in a.steps <==> s in multiset(a.steps);
    }
  }

  /* Transitive requirements */

  // A chain of selected modules, each directly requiring the one before, all with steps in between.
  ghost predicate IsChain(catalog: Catalog, chosen: set<string>, chain: seq<string>) {
    |chain| >= 2 &&
    (forall k :: 0 <= k < |chain| ==> chain[k] in chosen && chain[k] in catalog) &&
    (forall k :: 0 <= k < |chain| - 1 ==> chain[k] in catalog[chain[k + 1]].dependsOn)
  }

  lemma ComesBeforeIsTransitive(steps: seq<Step>, a: string, b: string, c: string)
    requires NoDuplicates(Ids(steps)) && ComesBefore(steps, a, b) && ComesBefore(steps, b, c)
    ensures ComesBefore(steps, a, c)
  {
    var i, j :| 0 <= i < j < |steps| && steps[i].id == a && steps[j].id == b;
    var k, l :| 0 <= k < l < |steps| && steps[k].id == b && steps[l].id == c;
    assert Ids(steps)[j] == Ids(steps)[k];
    assert j == k;
  }

  // Order reaches along a chain as long as no module inside it is empty.
  lemma {:induction false} ChainIsOrdered(catalog: Catalog, selection: Selection, steps: seq<Step>, chain: seq<string>, a: Step, b: Step)
    requires AllUnique(catalog) && Planned(catalog, selection) == Ok(steps)
    requires IsChain(catalog, Chosen(catalog, selection), chain)
    requires forall k :: 0 < k < |chain| - 1 ==> catalog[chain[k]].steps != {}
    requires a in catalog[chain[0]].steps && b in catalog[chain[|chain| - 1]].steps
    ensures ComesBefore(steps, a.id, b.id)
    decreases |chain|
  {
    var last := |chain| - 1;
    if last == 1 {
      PlanRespectsModules(catalog, selection, steps, chain[1], chain[0], a, b);
    } else {
      var middle :| middle in catalog[chain[last - 1]].steps;
      var shorter := chain[..last];
      assert IsChain(catalog, Chosen(catalog, selection), shorter);
      ChainIsOrdered(catalog, selection, steps, shorter, a, middle);
      PlanRespectsModules(catalog, selection, steps, chain[last], chain[last - 1], middle, b);
      PlanIsLeastOrder(catalog, selection, steps);
      ComesBeforeIsTransitive(steps, a.id, middle.id, b.id);
    }
  }

  lemma {:induction false} MeasuredWalk(edges: Edges, nodes: set<string>, measure: map<string, nat>, walk: seq<string>)
    requires nodes <= measure.Keys && IsWalk(edges, nodes, walk) && walk != []
    requires forall a, b :: (a, b) in edges && a in nodes && b in nodes ==> measure[a] < measure[b]
    ensures walk[0] in nodes && walk[|walk| - 1] in nodes
    ensures |walk| > 1 ==> measure[walk[0]] < measure[walk[|walk| - 1]]
    decreases |walk|
  {
    assert walk[0] in Elements(walk) && walk[|walk| - 1] in Elements(walk);
    if |walk| > 1 {
      var n := |walk| - 1;
      assert walk[n - 1] in Elements(walk) && (walk[n - 1], walk[n]) in edges;
      MeasuredWalk(edges, nodes, measure, walk[..n]);
    }
  }

  lemma MeasuredIsAcyclic(edges: Edges, nodes: set<string>, measure: map<string, nat>)
    requires nodes <= measure.Keys
    requires forall a, b :: (a, b) in edges && a in nodes && b in nodes ==> measure[a] < measure[b]
    ensures Acyclic(edges, nodes)
  {
    forall walk ensures !IsCycle(edges, nodes, walk) {
      if |walk| >= 2 && IsWalk(edges, nodes, walk) {
        MeasuredWalk(edges, nodes, measure, walk);
      }
    }
  }

  function PlainStep(id: string, owner: string): Step {
    Step(id, owner, [], "", "user", "none", "", APPLY, None, None, None)
  }

  // bootstrap requires bridge, which has no steps and requires verify; nothing is left out.
  ghost predicate IsBridged(catalog: Catalog, selection: Selection) {
    selection == Selection([], [], []) &&
    catalog == map[
      "bootstrap" := Definition(true, ["bridge"], {PlainStep("b", "bootstrap")}),
      "bridge" := Definition(true, ["verify"], {}),
      "verify" := Definition(true, [], {PlainStep("v", "verify")})]
  }

  // Across a module without steps the order is lost: the step of bootstrap runs before the step of
  // the module that bootstrap needs, two requirements away.
  lemma EmptyModuleBreaksChain(catalog: Catalog, selection: Selection)
    requires IsBridged(catalog, selection)
    ensures IsChain(catalog, Chosen(catalog, selection), ["verify", "bridge", "bootstrap"])
    ensures AllUnique(catalog) && Planned(catalog, selection).Ok?
    ensures Ids(Planned(catalog, selection).value) == ["b", "v"]
  {
    BridgedChain(catalog, selection);
    BridgedIsPlanned(catalog, selection);
    BridgedOrder(catalog, selection, Planned(catalog, selection).value);
  }

  lemma BridgedChain(catalog: Catalog, selection: Selection)
    requires IsBridged(catalog, selection)
    ensures IsChain(catalog, Chosen(catalog, selection), ["verify", "bridge", "bootstrap"])
  {
    BridgedSelection(catalog, selection);
  }

  lemma BridgedOrder(catalog: Catalog, selection: Selection, steps: seq<Step>)
    requires IsBridged(catalog, selection) && AllUnique(catalog) && Planned(catalog, selection) == Ok(steps)
    ensures Ids(steps) == ["b", "v"]
  {
    BridgedSteps(catalog, selection);
    var byId := StepsById(catalog, selection);
    PlanIsLeastOrder(catalog, selection, steps);
    BridgedRank(byId);
    TwoInOrder(StepRank(byId), Ids(steps), "b", "v");
  }

  lemma BridgedRank(byId: map<string, Step>)
    requires byId == map["b" := PlainStep("b", "bootstrap"), "v" := PlainStep("v", "verify")]
    ensures byId.Keys == {"b", "v"} && Before(StepRank(byId), "b", "v")
  {
    assert ModuleRank(byId["b"].owner) == 0 && ModuleRank(byId["v"].owner) == 7;
  }

  lemma TwoInOrder(rank: Rank, order: seq<string>, a: string, b: string)
    requires IsLeastOrder(rank, {}, {a, b}, order) && a != b && Before(rank, a, b)
    ensures order == [a, b]
  {
    assert IsTopological({}, {a, b}, [a, b]);
    NoDuplicatesLength(order);
    assert |{a, b}| == 2;
    assert order[0] in Elements(order) && order[1] in Elements(order);
    BeforeIsStrictTotal(rank, a, b);
  }

  lemma BridgedSelection(catalog: Catalog, selection: Selection)
    requires IsBridged(catalog, selection)
    ensures Chosen(catalog, selection) == catalog.Keys == {"bootstrap", "bridge", "verify"}
  {
    assert EnabledIn(catalog) == {"bootstrap", "bridge", "verify"};
  }

  lemma BridgedIsPlanned(catalog: Catalog, selection: Selection)
    requires IsBridged(catalog, selection)
    ensures AllUnique(catalog) && Planned(catalog, selection).Ok?
  {
    BridgedSelection(catalog, selection);
    BridgedSteps(catalog, selection);
    var chosen := Chosen(catalog, selection);
    var depth := map["verify" := 0, "bridge" := 1, "bootstrap" := 2];
    MeasuredIsAcyclic(ModuleEdges(catalog, chosen), chosen, depth);
    var byId := StepsById(catalog, selection);
    MeasuredIsAcyclic({}, byId.Keys, map n | n in byId.Keys :: 0);
    assert SelectionClosed(catalog, selection);
    assert UnknownIn(catalog, selection).None?;
    PlanExistsExactlyWhen(catalog, selection);
  }

  lemma BridgedSteps(catalog: Catalog, selection: Selection)
    requires IsBridged(catalog, selection)
    ensures AllUnique(catalog)
    ensures StepsById(catalog, selection) == map["b" := PlainStep("b", "bootstrap"), "v" := PlainStep("v", "verify")]
    ensures EdgesOf(catalog, selection) == {}
    ensures StepsClosed(catalog, selection)
  {
    var b, v := PlainStep("b", "bootstrap"), PlainStep("v", "verify");
    BridgedSelection(catalog, selection);
    forall s ensures s in StepsOf(catalog, catalog.Keys) <==> s == b || s == v {
      assert b in catalog["bootstrap"].steps && v in catalog["verify"].steps;
    }
    BridgedEdges(catalog, selection);
  }

  lemma BridgedEdges(catalog: Catalog, selection: Selection)
    requires IsBridged(catalog, selection)
    ensures RequirementEdges(catalog, catalog.Keys, catalog.Keys) == {}
  {
    var chosen := catalog.Keys;
    assert RequiredBy(catalog, chosen, "bootstrap", ["bridge"]) == {};
    assert RequiredBy(catalog, chosen, "bridge", ["verify"]) == {};
    assert RequiredBy(catalog, chosen, "verify", []) == {};
  }
}
