// Topological order of a dependency graph: Kahn's algorithm with a sorted ready list, as
// internal/planner/plan.go runs it once over modules and once over steps.
module Topology {
  import opened Text

  // An edge (a, b) says that a comes before b.
  type Edges = set<(string, string)>

  ghost function Preds(edges: Edges, left: set<string>, n: string): set<string> {
    set p | p in left && (p, n) in edges
  }

  ghost function Ready(edges: Edges, left: set<string>): set<string> {
    set n | n in left && Preds(edges, left, n) == {}
  }

  // What the ready list yields when its least name is taken first, each time.
  ghost function Drained(rank: Rank, edges: Edges, left: set<string>): (order: seq<string>)
    decreases left
  {
    var ready := Ready(edges, left);
    if ready == {} then []
    else [Least(rank, ready)] + Drained(rank, edges, left - {Least(rank, ready)})
  }

  ghost function Stuck(rank: Rank, edges: Edges, nodes: set<string>): set<string> {
    nodes - Elements(Drained(rank, edges, nodes))
  }

  /* Reference notions, independent of the algorithm */

  // No name stands at or after a name it must precede.
  ghost predicate Respects(edges: Edges, order: seq<string>) {
    forall i, j :: 0 <= i <= j < |order| ==> (order[j], order[i]) !in edges
  }

  ghost predicate IsTopological(edges: Edges, nodes: set<string>, order: seq<string>) {
    NoDuplicates(order) && Elements(order) == nodes && Respects(edges, order)
  }

  // A set in which every name waits for a name of the set.
  ghost predicate Deadlocked(edges: Edges, names: set<string>) {
    forall n :: n in names ==> Preds(edges, names, n) != {}
  }

  ghost predicate IsWalk(edges: Edges, nodes: set<string>, walk: seq<string>) {
    Elements(walk) <= nodes &&
    forall i :: 0 <= i < |walk| - 1 ==> (walk[i], walk[i + 1]) in edges
  }

  ghost predicate IsCycle(edges: Edges, nodes: set<string>, walk: seq<string>) {
    |walk| >= 2 && walk[0] == walk[|walk| - 1] && IsWalk(edges, nodes, walk)
  }

  ghost predicate LexLeq(rank: Rank, a: seq<string>, b: seq<string>) {
    a == [] ||
    (b != [] && (Before(rank, a[0], b[0]) || (a[0] == b[0] && LexLeq(rank, a[1..], b[1..]))))
  }

  lemma {:induction false} LexLeqIsAntisymmetric(rank: Rank, a: seq<string>, b: seq<string>)
    requires LexLeq(rank, a, b) && LexLeq(rank, b, a)
    ensures a == b
  {
    if a != [] && b != [] {
      BeforeIsStrictTotal(rank, a[0], b[0]);
      LexLeqIsAntisymmetric(rank, a[1..], b[1..]);
      assert a == [a[0]] + a[1..] && b == [b[0]] + b[1..];
    }
  }

  // Every name comes after all the names it waits for.
  ghost predicate PredsEarlier(edges: Edges, nodes: set<string>, order: seq<string>) {
    forall i :: 0 <= i < |order| ==> Preds(edges, nodes, order[i]) <= Elements(order[..i])
  }

  /* Soundness */

  // Each name is emitted once, from the nodes, after every predecessor it has there.
  lemma {:induction false} DrainedIsSound(rank: Rank, edges: Edges, nodes: set<string>)
    ensures var order := Drained(rank, edges, nodes);
      NoDuplicates(order) && Elements(order) <= nodes && Respects(edges, order) && PredsEarlier(edges, nodes, order)
    decreases nodes
  {
    var ready := Ready(edges, nodes);
    if ready != {} {
      var n := Least(rank, ready);
      var order := Drained(rank, edges, nodes);
      var rest := Drained(rank, edges, nodes - {n});
      DrainedIsSound(rank, edges, nodes - {n});
      assert order == [n] + rest;
      assert n !in Elements(rest);
      forall i, j | 0 <= i <= j < |order| ensures (order[j], order[i]) !in edges {
        assert order[j] in nodes by { assert j > 0 ==> order[j] == rest[j - 1] && rest[j - 1] in Elements(rest); }
        if i == 0 {
          assert order[j] !in Preds(edges, nodes, n);
        }
      }
      forall i | 0 <= i < |order| ensures Preds(edges, nodes, order[i]) <= Elements(order[..i]) {
        if i > 0 {
          assert order[..i] == [n] + rest[..i - 1] && order[i] == rest[i - 1];
          assert Preds(edges, nodes, rest[i - 1]) <= Preds(edges, nodes - {n}, rest[i - 1]) + {n};
        }
      }
    }
  }

  lemma StuckAfterLeast(rank: Rank, edges: Edges, nodes: set<string>)
    requires Ready(edges, nodes) != {}
    ensures Stuck(rank, edges, nodes) == Stuck(rank, edges, nodes - {Least(rank, Ready(edges, nodes))})
  {
    var n := Least(rank, Ready(edges, nodes));
    ElementsOfAppend([n], Drained(rank, edges, nodes - {n}));
  }

  // What is never emitted is the largest deadlocked set.
  lemma {:induction false} StuckIsDeadlocked(rank: Rank, edges: Edges, nodes: set<string>)
    ensures Deadlocked(edges, Stuck(rank, edges, nodes))
    decreases nodes
  {
    var ready := Ready(edges, nodes);
    if ready == {} {
      assert Stuck(rank, edges, nodes) == nodes;
      forall n | n in nodes ensures Preds(edges, nodes, n) != {} {
        assert n !in ready;
      }
    } else {
      StuckAfterLeast(rank, edges, nodes);
      StuckIsDeadlocked(rank, edges, nodes - {Least(rank, ready)});
    }
  }

  lemma {:induction false} StuckIsLargest(rank: Rank, edges: Edges, nodes: set<string>, names: set<string>)
    requires names <= nodes && Deadlocked(edges, names)
    ensures names <= Stuck(rank, edges, nodes)
    decreases nodes
  {
    var ready := Ready(edges, nodes);
    if ready != {} {
      var n := Least(rank, ready);
      assert n !in names by {
        assert Preds(edges, names, n) <= Preds(edges, nodes, n);
      }
      StuckIsLargest(rank, edges, nodes - {n}, names);
      StuckAfterLeast(rank, edges, nodes);
    }
  }

  /* Completeness: the sort succeeds exactly on acyclic graphs */

  // A walk of any length ends in any name of a deadlocked set.
  lemma {:induction false} WalkInto(edges: Edges, names: set<string>, n: string, steps: nat) returns (walk: seq<string>)
    requires Deadlocked(edges, names) && n in names
    ensures |walk| == steps + 1 && walk[steps] == n && IsWalk(edges, names, walk)
    decreases steps
  {
    if steps == 0 {
      walk := [n];
    } else {
      var p :| p in Preds(edges, names, n);
      var before := WalkInto(edges, names, p, steps - 1);
      walk := before + [n];
      ElementsOfAppend(before, [n]);
    }
  }

  lemma DeadlockHasCycle(edges: Edges, names: set<string>)
    requires Deadlocked(edges, names) && names != {}
    ensures exists walk :: IsCycle(edges, names, walk)
  {
    var n :| n in names;
    var walk := WalkInto(edges, names, n, |names|);
    if NoDuplicates(walk) {
      NoDuplicatesLength(walk);
      SubsetIsSmaller(Elements(walk), names);
      assert false;
    } else {
      var i, j :| 0 <= i < j < |walk| && walk[i] == walk[j];
      var cycle := walk[i..j + 1];
      forall x | x in cycle ensures x in names {
        assert x in Elements(walk);
      }
      assert IsCycle(edges, names, cycle);
    }
  }

  lemma {:induction false} SubsetIsSmaller<T>(a: set<T>, b: set<T>)
    requires a <= b
    ensures |a| <= |b|
  {
    if a != {} {
      var x :| x in a;
      SubsetIsSmaller(a - {x}, b - {x});
    }
  }

  lemma CycleIsDeadlocked(edges: Edges, nodes: set<string>, walk: seq<string>)
    requires IsCycle(edges, nodes, walk)
    ensures Deadlocked(edges, Elements(walk))
  {
    forall n | n in Elements(walk) ensures Preds(edges, Elements(walk), n) != {} {
      var i :| 0 <= i < |walk| && walk[i] == n;
      var k := if i == 0 then |walk| - 1 else i;
      assert (walk[k - 1], walk[k]) in edges && walk[k - 1] in Elements(walk);
      assert walk[k - 1] in Preds(edges, Elements(walk), n);
    }
  }

  lemma SucceedsExactlyWhenAcyclic(rank: Rank, edges: Edges, nodes: set<string>)
    ensures Stuck(rank, edges, nodes) == {} <==> !exists walk :: IsCycle(edges, nodes, walk)
    ensures Stuck(rank, edges, nodes) == {} <==> IsTopological(edges, nodes, Drained(rank, edges, nodes))
  {
    var stuck := Stuck(rank, edges, nodes);
    StuckIsDeadlocked(rank, edges, nodes);
    DrainedIsSound(rank, edges, nodes);
    forall n | n in nodes ensures n in Drained(rank, edges, nodes) <==> n !in stuck {
    }
    if stuck != {} {
      DeadlockHasCycle(edges, stuck);
      var walk :| IsCycle(edges, stuck, walk);
      assert IsCycle(edges, nodes, walk);
    }
    if walk :| IsCycle(edges, nodes, walk) {
      CycleIsDeadlocked(edges, nodes, walk);
      StuckIsLargest(rank, edges, nodes, Elements(walk));
      assert walk[0] in Elements(walk);
    }
  }

  /* The result is the least topological order */

  lemma {:induction false} DrainedIsLeast(rank: Rank, edges: Edges, nodes: set<string>, other: seq<string>)
    requires IsTopological(edges, nodes, other)
    ensures LexLeq(rank, Drained(rank, edges, nodes), other)
    decreases nodes
  {
    var ready := Ready(edges, nodes);
    if ready != {} {
      var n := Least(rank, ready);
      assert other != [] by { assert n in Elements(other); }
      var first := other[0];
      assert first in Elements(other);
      forall p | p in nodes ensures (p, first) !in edges {
        assert p in Elements(other);
        var j :| 0 <= j < |other| && other[j] == p;
        assert (other[j], other[0]) !in edges;
      }
      assert first in ready;
      if first == n {
        assert other == [first] + other[1..];
        assert first !in other[1..];
        assert Elements(other[1..]) == nodes - {n};
        DrainedIsLeast(rank, edges, nodes - {n}, other[1..]);
      }
    }
  }

  // A topological order exists only where the sort finds one, and no other one is as small.
  lemma LeastOrderIsUnique(rank: Rank, edges: Edges, nodes: set<string>, order: seq<string>)
    requires IsTopological(edges, nodes, order)
    requires forall other :: IsTopological(edges, nodes, other) ==> LexLeq(rank, order, other)
    ensures order == Drained(rank, edges, nodes)
  {
    StuckIsDeadlocked(rank, edges, nodes);
    DeadlockBreaksOrder(edges, Stuck(rank, edges, nodes), order);
    SucceedsExactlyWhenAcyclic(rank, edges, nodes);
    DrainedIsLeast(rank, edges, nodes, order);
    LexLeqIsAntisymmetric(rank, order, Drained(rank, edges, nodes));
  }

  // Of a deadlocked set, the first member listed still waits for another one.
  lemma DeadlockBreaksOrder(edges: Edges, names: set<string>, order: seq<string>)
    requires Deadlocked(edges, names) && names <= Elements(order)
    ensures names != {} ==> !Respects(edges, order)
  {
    if n :| n in names {
      var i := FirstMember(order, names, n);
      var p :| p in Preds(edges, names, order[i]);
      assert p in Elements(order);
      var j :| 0 <= j < |order| && order[j] == p;
      assert i <= j && (order[j], order[i]) in edges;
    }
  }

  lemma {:induction false} FirstMember(order: seq<string>, names: set<string>, n: string) returns (i: nat)
    requires n in names && n in order
    ensures i < |order| && order[i] in names && forall j :: 0 <= j < i ==> order[j] !in names
  {
    if order[0] in names {
      i := 0;
    } else {
      var k := FirstMember(order[1..], names, n);
      i := k + 1;
      forall j | 0 <= j < i ensures order[j] !in names {
        assert j > 0 ==> order[j] == order[1..][j - 1];
      }
    }
  }

  /* The algorithm */

  ghost predicate Counts(edges: Edges, left: set<string>, degree: map<string, nat>) {
    left <= degree.Keys && forall n :: n in left ==> degree[n] == |Preds(edges, left, n)|
  }

  ghost function Targets(edges: Edges, nodes: set<string>, n: string): set<string> {
    set m | m in nodes && (n, m) in edges
  }

  function Listed(successors: map<string, set<string>>, n: string): set<string> {
    if n in successors then successors[n] else {}
  }

  ghost predicate Lists(edges: Edges, nodes: set<string>, successors: map<string, set<string>>) {
    forall n :: n in nodes ==> Listed(successors, n) == Targets(edges, nodes, n)
  }

  // Between two emissions: `left` is not emitted yet, and nothing in it precedes what is emitted.
  ghost predicate Draining(rank: Rank, edges: Edges, nodes: set<string>, left: set<string>,
                           order: seq<string>, degree: map<string, nat>, ready: seq<string>) {
    left <= nodes == degree.Keys &&
    Counts(edges, left, degree) &&
    NoDuplicates(ready) && Elements(ready) == Ready(edges, left) &&
    order + Drained(rank, edges, left) == Drained(rank, edges, nodes) &&
    Elements(order) == nodes - left &&
    (forall n :: n in nodes && n !in left ==> degree[n] == 0) &&
    (forall p, n :: p in left && n in nodes && n !in left ==> (p, n) !in edges)
  }

  // The loops of orderSteps and moduleCycle: sort the ready list, take its head, release its
  // successors. The degrees left over tell the nodes never reached.
  method Drain(rank: Rank, nodes: set<string>, successors: map<string, set<string>>, initial: map<string, nat>,
               ghost edges: Edges)
    returns (order: seq<string>, degree: map<string, nat>)
    requires initial.Keys == nodes && Counts(edges, nodes, initial)
    requires Lists(edges, nodes, successors)
    ensures order == Drained(rank, edges, nodes)
    ensures degree.Keys == nodes
    ensures forall n :: n in nodes ==> (degree[n] != 0 <==> n in Stuck(rank, edges, nodes))
  {
    degree := initial;
    order := [];
    var ready := WithoutPreds(nodes, degree, edges);
    ghost var left := nodes;
    while ready != []
      invariant Draining(rank, edges, nodes, left, order, degree, ready)
      decreases left
    {
      order, degree, ready, left := EmitLeast(rank, nodes, successors, order, degree, ready, edges, left);
    }
    assert order + [] == order;
    forall n | n in left ensures degree[n] != 0 {
      assert n !in Ready(edges, left);
    }
  }

  method EmitLeast(rank: Rank, nodes: set<string>, successors: map<string, set<string>>,
                   emitted: seq<string>, before: map<string, nat>, waiting: seq<string>,
                   ghost edges: Edges, ghost was: set<string>)
    returns (order: seq<string>, degree: map<string, nat>, ready: seq<string>, ghost left: set<string>)
    requires Lists(edges, nodes, successors)
    requires Draining(rank, edges, nodes, was, emitted, before, waiting) && waiting != []
    ensures Draining(rank, edges, nodes, left, order, degree, ready) && left < was
  {
    var id;
    id, ready := TakeLeast(rank, waiting);
    DrainedStep(rank, edges, was, emitted);
    order := emitted + [id];
    forall p | p in was ensures (p, id) !in edges {
      assert p !in Preds(edges, was, id);
    }
    degree, ready := Release(id, successors, before, ready, edges, nodes, was);
    left := was - {id};
  }

  lemma DrainedStep(rank: Rank, edges: Edges, left: set<string>, emitted: seq<string>)
    requires Ready(edges, left) != {}
    ensures var n := Least(rank, Ready(edges, left));
      emitted + Drained(rank, edges, left) == (emitted + [n]) + Drained(rank, edges, left - {n}) &&
      Elements(emitted + [n]) == Elements(emitted) + {n}
  {
    var n := Least(rank, Ready(edges, left));
    AppendIsAssociative(emitted, [n], Drained(rank, edges, left - {n}));
    ElementsOfAppend(emitted, [n]);
  }

  method WithoutPreds(nodes: set<string>, degree: map<string, nat>, ghost edges: Edges) returns (ready: seq<string>)
    requires degree.Keys == nodes && Counts(edges, nodes, degree)
    ensures NoDuplicates(ready) && Elements(ready) == Ready(edges, nodes)
  {
    ready := [];
    var names := Keys(nodes);
    for i := 0 to |names|
      invariant NoDuplicates(ready)
      invariant forall n :: n in ready <==> n in names[..i] && degree[n] == 0
    {
      assert names[i] in Elements(names);
      assert names[..i + 1] == names[..i] + [names[i]];
      if degree[names[i]] == 0 {
        ready := ready + [names[i]];
      }
    }
    assert names[..|names|] == names;
    forall n | n in nodes ensures n in ready <==> n in Ready(edges, nodes) {
      assert n in Elements(names);
    }
    assert Elements(ready) == Ready(edges, nodes);
  }

  method TakeLeast(rank: Rank, ready: seq<string>) returns (id: string, rest: seq<string>)
    requires NoDuplicates(ready) && ready != []
    ensures id in Elements(ready) && id == Least(rank, Elements(ready))
    ensures NoDuplicates(rest) && Elements(rest) == Elements(ready) - {id}
  {
    assert ready[0] in Elements(ready);
    var sorted := Sort(rank, ready);
    HeadIsLeast(rank, sorted);
    id, rest := sorted[0], sorted[1..];
  }

  lemma HeadIsLeast(rank: Rank, sorted: seq<string>)
    requires sorted != [] && Increasing(rank, sorted)
    ensures sorted[0] in Elements(sorted) && Least(rank, Elements(sorted)) == sorted[0]
    ensures Elements(sorted[1..]) == Elements(sorted) - {sorted[0]}
  {
    IncreasingHasNoDuplicates(rank, sorted);
    assert sorted == [sorted[0]] + sorted[1..];
    assert IsLeast(rank, Elements(sorted), sorted[0]);
    LeastIsUnique(rank, Elements(sorted), sorted[0]);
  }

  // Names of `pending` still count the name just taken out.
  ghost predicate CountsBut(edges: Edges, left: set<string>, degree: map<string, nat>, pending: set<string>) {
    left <= degree.Keys &&
    forall n :: n in left ==> degree[n] == |Preds(edges, left, n)| + (if n in pending then 1 else 0)
  }

  lemma CountsWithout(edges: Edges, left: set<string>, degree: map<string, nat>, id: string, pending: set<string>)
    requires Counts(edges, left, degree) && id in left
    requires forall n :: n in left ==> (n in pending <==> (id, n) in edges)
    ensures CountsBut(edges, left - {id}, degree, pending)
  {
    forall n | n in left - {id}
      ensures degree[n] == |Preds(edges, left - {id}, n)| + (if n in pending then 1 else 0)
    {
      assert Preds(edges, left - {id}, n) == Preds(edges, left, n) - {id};
      assert n in pending <==> id in Preds(edges, left, n);
    }
  }

  ghost function Idle(degree: map<string, nat>, left: set<string>): set<string> {
    set n | n in left && n in degree && degree[n] == 0
  }

  // Takes id out of the graph: each successor waits for one name less, and joins the ready list
  // when it waits for none.
  method Release(id: string, successors: map<string, set<string>>, before: map<string, nat>, waiting: seq<string>,
                 ghost edges: Edges, ghost nodes: set<string>, ghost left: set<string>)
    returns (degree: map<string, nat>, ready: seq<string>)
    requires left <= nodes == before.Keys && id in Ready(edges, left)
    requires Lists(edges, nodes, successors)
    requires Targets(edges, nodes, id) <= left
    requires Counts(edges, left, before)
    requires NoDuplicates(waiting) && Elements(waiting) == Ready(edges, left) - {id}
    ensures degree.Keys == nodes && Counts(edges, left - {id}, degree)
    ensures forall n :: n in nodes && n !in left - {id} ==> degree[n] == before[n]
    ensures NoDuplicates(ready) && Elements(ready) == Ready(edges, left - {id})
  {
    degree, ready := before, waiting;
    ghost var after := left - {id};
    var next := Keys(Listed(successors, id));
    NoDuplicatesLength(next);
    assert id !in Preds(edges, left, id);
    ghost var pending := Targets(edges, nodes, id);
    CountsWithout(edges, left, degree, id, pending);
    for i := 0 to |next|
      invariant degree.Keys == nodes
      invariant |pending| == |next| - i && pending <= after
      invariant forall k :: i <= k < |next| ==> next[k] in pending
      invariant CountsBut(edges, after, degree, pending)
      invariant forall n :: n in nodes && n !in after ==> degree[n] == before[n]
      invariant NoDuplicates(ready) && Elements(ready) == Idle(degree, after)
    {
      degree, ready := ReleaseOne(next[i], degree, ready, edges, after, pending);
      pending := pending - {next[i]};
    }
    assert pending == {};
  }

  method ReleaseOne(n: string, before: map<string, nat>, waiting: seq<string>,
                    ghost edges: Edges, ghost left: set<string>, ghost pending: set<string>)
    returns (degree: map<string, nat>, ready: seq<string>)
    requires n in pending && n in left && CountsBut(edges, left, before, pending)
    requires NoDuplicates(waiting) && Elements(waiting) == Idle(before, left)
    ensures before[n] > 0 && degree == before[n := before[n] - 1]
    ensures CountsBut(edges, left, degree, pending - {n})
    ensures NoDuplicates(ready) && Elements(ready) == Idle(degree, left)
  {
    degree := before[n := before[n] - 1];
    ready := waiting;
    assert n !in Elements(ready) && forall i :: 0 <= i < |ready| ==> ready[i] in Elements(ready);
    if degree[n] == 0 {
      ElementsOfAppend(ready, [n]);
      ready := ready + [n];
    }
  }
}
