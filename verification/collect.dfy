/** The `Collect*` helpers of `BinaryLogViewModels`: the targets, tasks and
    evaluation locations of a build, gathered recursively and deduplicated
    at every level with LINQ's `Union`. */
module Collect {
  import opened Seqs
  import opened LogModel

  /* `CollectTargets(project)` and `CollectTasks(project)` recurse the same
     way and differ only in what a project contributes at its own level:
     `Union(direct(project), <the collection of every child project of
     every task of every target, concatenated in that order>)`. `Gather`
     is that recursion, with `direct` the level's contribution; `FromTargets`,
     `FromTasks` and `FromChildren` are the three nested `SelectMany`s. */

  function Gather<X(==)>(p: Project, direct: Project -> seq<X>): (r: seq<X>)
    ensures NoDup(r)
    ensures forall x | x in direct(p) :: x in r
    decreases p, 3
  {
    var r := Union(direct(p), FromTargets(p, 0, direct));
    assert forall x | x in direct(p) :: x in Elements(direct(p));
    assert forall x | x in Elements(r) :: x in r;
    r
  }

  function FromTargets<X(==)>(p: Project, i: nat, direct: Project -> seq<X>): seq<X>
    decreases p, 2, |p.targets| - i
  {
    if i >= |p.targets| then [] else FromTasks(p.targets[i], 0, direct) + FromTargets(p, i + 1, direct)
  }

  function FromTasks<X(==)>(t: TargetNode, j: nat, direct: Project -> seq<X>): seq<X>
    decreases t, 1, |t.tasks| - j
  {
    if j >= |t.tasks| then [] else FromChildren(t.tasks[j], 0, direct) + FromTasks(t, j + 1, direct)
  }

  function FromChildren<X(==)>(k: TaskNode, l: nat, direct: Project -> seq<X>): seq<X>
    decreases k, 0, |k.childProjects| - l
  {
    if l >= |k.childProjects| then []
    else Gather(k.childProjects[l], direct) + FromChildren(k, l + 1, direct)
  }

  /** The reference definition: `x` is contributed by `p` itself or by a
      project built, at any depth, by one of its tasks. */
  predicate Reachable<X(==)>(x: X, p: Project, direct: Project -> seq<X>)
    decreases p, 3
  {
    x in direct(p) || InTargets(x, p, 0, direct)
  }

  predicate InTargets<X(==)>(x: X, p: Project, i: nat, direct: Project -> seq<X>)
    decreases p, 2
  {
    exists m | i <= m < |p.targets| :: InTasks(x, p.targets[m], 0, direct)
  }

  predicate InTasks<X(==)>(x: X, t: TargetNode, j: nat, direct: Project -> seq<X>)
    decreases t, 1
  {
    exists m | j <= m < |t.tasks| :: InChildren(x, t.tasks[m], 0, direct)
  }

  predicate InChildren<X(==)>(x: X, k: TaskNode, l: nat, direct: Project -> seq<X>)
    decreases k, 0
  {
    exists m | l <= m < |k.childProjects| :: Reachable(x, k.childProjects[m], direct)
  }

  /** The collection holds exactly the reachable nodes. */
  lemma {:induction false} GatherReachable<X>(p: Project, direct: Project -> seq<X>)
    ensures forall x :: x in Gather(p, direct) <==> Reachable(x, p, direct)
    decreases p, 3
  {
    FromTargetsReachable(p, 0, direct);
    var r := Gather(p, direct);
    assert Elements(r) == Elements(direct(p)) + Elements(FromTargets(p, 0, direct));
    forall x ensures x in r <==> Reachable(x, p, direct) {
      assert x in r <==> x in Elements(r);
      assert x in direct(p) <==> x in Elements(direct(p));
      assert x in FromTargets(p, 0, direct) <==> x in Elements(FromTargets(p, 0, direct));
    }
  }

  lemma {:induction false} FromTargetsReachable<X>(p: Project, i: nat, direct: Project -> seq<X>)
    ensures forall x :: x in FromTargets(p, i, direct) <==> InTargets(x, p, i, direct)
    decreases p, 2, |p.targets| - i
  {
    if i < |p.targets| {
      FromTasksReachable(p.targets[i], 0, direct);
      FromTargetsReachable(p, i + 1, direct);
      forall x ensures x in FromTargets(p, i, direct) <==> InTargets(x, p, i, direct) {
        if InTargets(x, p, i, direct) {
          var m :| i <= m < |p.targets| && InTasks(x, p.targets[m], 0, direct);
          if m != i {
            assert InTargets(x, p, i + 1, direct);
          }
        }
      }
    }
  }

  lemma {:induction false} FromTasksReachable<X>(t: TargetNode, j: nat, direct: Project -> seq<X>)
    ensures forall x :: x in FromTasks(t, j, direct) <==> InTasks(x, t, j, direct)
    decreases t, 1, |t.tasks| - j
  {
    if j < |t.tasks| {
      FromChildrenReachable(t.tasks[j], 0, direct);
      FromTasksReachable(t, j + 1, direct);
      forall x ensures x in FromTasks(t, j, direct) <==> InTasks(x, t, j, direct) {
        if InTasks(x, t, j, direct) {
          var m :| j <= m < |t.tasks| && InChildren(x, t.tasks[m], 0, direct);
          if m != j {
            assert InTasks(x, t, j + 1, direct);
          }
        }
      }
    }
  }

  lemma {:induction false} FromChildrenReachable<X>(k: TaskNode, l: nat, direct: Project -> seq<X>)
    ensures forall x :: x in FromChildren(k, l, direct) <==> InChildren(x, k, l, direct)
    decreases k, 0, |k.childProjects| - l
  {
    if l < |k.childProjects| {
      GatherReachable(k.childProjects[l], direct);
      FromChildrenReachable(k, l + 1, direct);
      forall x ensures x in FromChildren(k, l, direct) <==> InChildren(x, k, l, direct) {
        if InChildren(x, k, l, direct) {
          var m :| l <= m < |k.childProjects| && Reachable(x, k.childProjects[m], direct);
          if m != l {
            assert InChildren(x, k, l + 1, direct);
          }
        }
      }
    }
  }

  /** A project's level contributions when collecting targets. */
  function DirectTargets(p: Project): seq<TargetNode> {
    p.targets
  }

  /** The tasks of the given targets, in order. */
  function TasksOf(targets: seq<TargetNode>): (r: seq<TaskNode>)
    ensures forall k | k in r :: exists t | t in targets :: k in t.tasks
    ensures forall t, k | t in targets && k in t.tasks :: k in r
  {
    if targets == [] then []
    else
      var rest := TasksOf(targets[1..]);
      assert forall t | t in targets :: t == targets[0] || t in targets[1..];
      targets[0].tasks + rest
  }

  /** A project's level contributions when collecting tasks. */
  function DirectTasks(p: Project): seq<TaskNode> {
    TasksOf(p.targets)
  }

  /** `CollectTargets(Project)`: the project's own targets first, then the
      targets collected from the projects its tasks built, each once. */
  function CollectTargets(p: Project): (r: seq<TargetNode>)
    ensures NoDup(r)
    ensures forall t | t in p.targets :: t in r
  {
    Gather(p, DirectTargets)
  }

  /** A project whose own targets are distinct lists them first, in
      order. */
  lemma OwnTargetsFirst(p: Project)
    requires NoDup(p.targets)
    ensures var r := CollectTargets(p);
            |p.targets| <= |r| && r[..|p.targets|] == p.targets
  {
    UnionKeepsFirst(p.targets, FromTargets(p, 0, DirectTargets));
  }

  /** `CollectTasks(Project)`: the tasks of the project's own targets first,
      then the tasks collected from the projects they built, each once. */
  function CollectTasks(p: Project): (r: seq<TaskNode>)
    ensures NoDup(r)
    ensures forall t, k | t in p.targets && k in t.tasks :: k in r
  {
    Gather(p, DirectTasks)
  }

  /** The `AddRange` loop over the top-level projects: the per-project
      collections are concatenated, with no deduplication between them. */
  function CollectAll<X(==)>(ps: seq<Project>, direct: Project -> seq<X>): (r: seq<X>)
    ensures |ps| == 1 ==> r == Gather(ps[0], direct)
    ensures ps == [] ==> r == []
    ensures forall x | x in r :: exists i | 0 <= i < |ps| :: x in Gather(ps[i], direct)
    ensures forall i, x | 0 <= i < |ps| && x in Gather(ps[i], direct) :: x in r
  {
    if ps == [] then [] else Gather(ps[0], direct) + CollectAll(ps[1..], direct)
  }

  /** The concatenation holds exactly what some top-level project reaches. */
  lemma {:induction false} CollectAllReachable<X>(ps: seq<Project>, direct: Project -> seq<X>)
    ensures forall x :: x in CollectAll(ps, direct) <==> exists i | 0 <= i < |ps| :: Reachable(x, ps[i], direct)
    decreases |ps|
  {
    if ps != [] {
      GatherReachable(ps[0], direct);
      CollectAllReachable(ps[1..], direct);
      forall x ensures x in CollectAll(ps, direct) <==> exists i | 0 <= i < |ps| :: Reachable(x, ps[i], direct) {
        if i :| 0 <= i < |ps| && Reachable(x, ps[i], direct) {
          if i > 0 {
            assert ps[1..][i - 1] == ps[i];
          }
        }
        if x in CollectAll(ps[1..], direct) {
          var i :| 0 <= i < |ps[1..]| && Reachable(x, ps[1..][i], direct);
          assert ps[i + 1] == ps[1..][i];
        }
      }
    }
  }

  /** `CollectTargets(IEnumerable<Project>)`. */
  function CollectAllTargets(ps: seq<Project>): (r: seq<TargetNode>)
    ensures forall t :: t in r <==> exists i | 0 <= i < |ps| :: Reachable(t, ps[i], DirectTargets)
    ensures |ps| == 1 ==> r == CollectTargets(ps[0])
  {
    CollectAllReachable(ps, DirectTargets);
    CollectAll(ps, DirectTargets)
  }

  /** `CollectTasks(IEnumerable<Project>)`. */
  function CollectAllTasks(ps: seq<Project>): (r: seq<TaskNode>)
    ensures forall k :: k in r <==> exists i | 0 <= i < |ps| :: Reachable(k, ps[i], DirectTasks)
    ensures |ps| == 1 ==> r == CollectTasks(ps[0])
  {
    CollectAllReachable(ps, DirectTasks);
    CollectAll(ps, DirectTasks)
  }

  /** Every target reachable from a top-level project, and nothing else. */
  lemma CollectTargetsReachable(p: Project)
    ensures forall t :: t in CollectTargets(p) <==> Reachable(t, p, DirectTargets)
  {
    GatherReachable(p, DirectTargets);
  }

  /** Every task of a reachable project, and nothing else. */
  lemma CollectTasksReachable(p: Project)
    ensures forall k :: k in CollectTasks(p) <==> Reachable(k, p, DirectTasks)
  {
    GatherReachable(p, DirectTasks);
  }

  /** Collecting over two runs of top-level projects is concatenating the two
      collections: a node shared by two top-level projects is kept twice. */
  lemma {:induction false} CollectAllAppend<X>(ps: seq<Project>, qs: seq<Project>, direct: Project -> seq<X>)
    ensures CollectAll(ps + qs, direct) == CollectAll(ps, direct) + CollectAll(qs, direct)
    decreases |ps|
  {
    if ps == [] {
      assert ps + qs == qs;
    } else {
      assert (ps + qs)[0] == ps[0];
      assert (ps + qs)[1..] == ps[1..] + qs;
      CollectAllAppend(ps[1..], qs, direct);
    }
  }

  /** The same project listed twice at the top level is counted twice. */
  lemma TopLevelDuplicatesKept<X>(p: Project, direct: Project -> seq<X>)
    ensures CollectAll([p, p], direct) == Gather(p, direct) + Gather(p, direct)
  {
    CollectAllAppend([p], [p], direct);
    assert [p] + [p] == [p, p];
    assert [p][1..] == [];
  }

  /* `CollectEvaluations(locations)` returns an empty input as it is, and
     otherwise `locations.Union(CollectEvaluations(<all their children>))`.
     It terminates because the children of a non-empty forest hold fewer
     nodes than the forest. */

  /** The number of nodes in a forest of locations. */
  function ForestSize(f: seq<Location>): nat
    decreases f
  {
    if f == [] then 0 else 1 + ForestSize(f[0].children) + ForestSize(f[1..])
  }

  /** `locations.SelectMany(l => l.Children)`. */
  function Children(f: seq<Location>): seq<Location> {
    if f == [] then [] else f[0].children + Children(f[1..])
  }

  lemma {:induction false} ForestSizeAppend(a: seq<Location>, b: seq<Location>)
    ensures ForestSize(a + b) == ForestSize(a) + ForestSize(b)
    decreases |a|
  {
    if a == [] {
      assert a + b == b;
    } else {
      assert (a + b)[0] == a[0];
      assert (a + b)[1..] == a[1..] + b;
      ForestSizeAppend(a[1..], b);
    }
  }

  lemma {:induction false} ChildrenSize(f: seq<Location>)
    ensures ForestSize(Children(f)) + |f| == ForestSize(f)
    decreases |f|
  {
    if f != [] {
      ChildrenSize(f[1..]);
      ForestSizeAppend(f[0].children, Children(f[1..]));
    }
  }

  function CollectEvaluations(f: seq<Location>): (r: seq<Location>)
    ensures NoDup(r)
    decreases ForestSize(f)
  {
    if f == [] then f
    else
      ChildrenSize(f);
      Union(f, CollectEvaluations(Children(f)))
  }

  /** The reference definition: `x` is one of the locations of the forest
      or nested, at any depth, below one of them. */
  predicate InForest(x: Location, f: seq<Location>)
    decreases f
  {
    exists i | 0 <= i < |f| :: x == f[i] || InForest(x, f[i].children)
  }

  lemma {:induction false} InForestAppend(x: Location, a: seq<Location>, b: seq<Location>)
    ensures InForest(x, a + b) <==> InForest(x, a) || InForest(x, b)
  {
    var ab := a + b;
    if InForest(x, ab) {
      var i :| 0 <= i < |ab| && (x == ab[i] || InForest(x, ab[i].children));
      if i < |a| {
        assert ab[i] == a[i];
      } else {
        assert ab[i] == b[i - |a|];
      }
    }
    if InForest(x, a) {
      var i :| 0 <= i < |a| && (x == a[i] || InForest(x, a[i].children));
      assert ab[i] == a[i];
    }
    if InForest(x, b) {
      var i :| 0 <= i < |b| && (x == b[i] || InForest(x, b[i].children));
      assert ab[i + |a|] == b[i];
    }
  }

  /** Below the forest means in it or below its children. */
  lemma {:induction false} InForestUnfold(x: Location, f: seq<Location>)
    ensures InForest(x, f) <==> x in f || InForest(x, Children(f))
    decreases |f|
  {
    if f != [] {
      InForestUnfold(x, f[1..]);
      InForestAppend(x, f[0].children, Children(f[1..]));
      assert f == [f[0]] + f[1..];
      InForestAppend(x, [f[0]], f[1..]);
      assert InForest(x, [f[0]]) <==> x == f[0] || InForest(x, f[0].children) by {
        assert [f[0]][0] == f[0];
      }
    }
  }

  /** Every location of the forest, at any depth, exactly once. */
  lemma {:induction false} CollectEvaluationsComplete(f: seq<Location>)
    ensures forall x :: x in CollectEvaluations(f) <==> InForest(x, f)
    decreases ForestSize(f)
  {
    if f != [] {
      ChildrenSize(f);
      CollectEvaluationsComplete(Children(f));
      var r := CollectEvaluations(f);
      assert Elements(r) == Elements(f) + Elements(CollectEvaluations(Children(f)));
      forall x ensures x in r <==> InForest(x, f) {
        InForestUnfold(x, f);
        assert x in r <==> x in Elements(r);
        assert x in f <==> x in Elements(f);
        assert x in CollectEvaluations(Children(f)) <==> x in Elements(CollectEvaluations(Children(f)));
      }
    }
  }

  /** The locations of the profiled evaluated projects:
      `Evaluations.SelectMany(EvaluatedProjects).Select(EvaluationProfile)
      .Where(p => p != null).SelectMany(Passes).SelectMany(Locations)`. */
  function RootLocations(evaluations: seq<Evaluation>): (r: seq<Location>)
    ensures forall x | x in r :: exists e, p, pass | e in evaluations && p in e.evaluatedProjects &&
              p.profile.Some? && pass in p.profile.value.passes :: x in pass.locations
    ensures forall e, p, pass, x | e in evaluations && p in e.evaluatedProjects && p.profile.Some? &&
              pass in p.profile.value.passes && x in pass.locations :: x in r
    ensures (forall e, p | e in evaluations && p in e.evaluatedProjects :: p.profile.None?) ==> r == []
  {
    if evaluations == [] then []
    else ProjectLocations(evaluations[0].evaluatedProjects) + RootLocations(evaluations[1..])
  }

  function ProjectLocations(ps: seq<EvaluatedProject>): (r: seq<Location>)
    ensures forall x | x in r :: exists p, pass | p in ps && p.profile.Some? &&
              pass in p.profile.value.passes :: x in pass.locations
    ensures forall p, pass, x | p in ps && p.profile.Some? && pass in p.profile.value.passes &&
              x in pass.locations :: x in r
    ensures (forall p | p in ps :: p.profile.None?) ==> r == []
  {
    if ps == [] then []
    else
      var own := match ps[0].profile
        case None => []
        case Some(profile) => PassLocations(profile.passes);
      own + ProjectLocations(ps[1..])
  }

  function PassLocations(passes: seq<Pass>): (r: seq<Location>)
    ensures forall x | x in r :: exists pass | pass in passes :: x in pass.locations
    ensures forall pass, x | pass in passes && x in pass.locations :: x in r
  {
    if passes == [] then [] else passes[0].locations + PassLocations(passes[1..])
  }

}
