/** Dependency sorting level by level. */
module TopSortLevels {
  import opened Graphs
  import opened DependencyTables

  datatype LevelsEnd =
    | StopIteration
    | LevelsCycleError(left: Tables)

  /** levels[k] lists exactly the nodes of depth k, once each. */
  ghost predicate AreLevels(nodes: set<Node>, g: Graph, levels: seq<seq<Node>>) {
    forall k {:trigger levels[k]} :: 0 <= k < |levels| ==>
      && levels[k] != [] && Distinct(levels[k])
      && forall x :: x in levels[k] <==> x in nodes && HasDepth(g, x, k)
  }

  /** All the levels there are; then a normal end, or the residue of a cyclic graph. */
  ghost predicate IsLevelsOf(q: Problem, levels: seq<seq<Node>>, end: LevelsEnd) {
    var g := EdgesOf(q.pairs);
    && AreLevels(q.nodes, g, levels)
    && (forall x :: x in q.nodes && !BelowCycle(g, x) ==> exists k :: 0 <= k < |levels| && x in levels[k])
    && match end
       case StopIteration => forall x :: x in q.nodes ==> !BelowCycle(g, x)
       case LevelsCycleError(left) => left.numParents != map[] && IsResidue(q, left)
  }

  /** Delete one parentless node and count its children down. */
  method Strip(ghost q: Problem, ghost removed: set<Node>, t0: Tables, parent: Node) returns (t: Tables)
    requires Left(q, removed, t0) && parent in t0.numParents && t0.numParents[parent] == 0
    ensures Left(q, removed + {parent}, t)
    ensures forall x :: x in t0.numParents && x != parent ==>
              x in t.numParents && 0 <= t.numParents[x] <= t0.numParents[x]
    ensures t.numParents.Keys == t0.numParents.Keys - {parent}
  {
    hide Left, CountingDown;
    var numParents, children := t0.numParents, t0.children;
    RemovalStarts(q, removed, t0, parent);
    numParents := numParents - {parent};
    if parent in children {
      var kids := children[parent];
      assert kids[0..] == kids;
      for j := 0 to |kids|
        invariant CountingDown(q, removed + {parent}, kids[j..], numParents)
        invariant numParents.Keys == t0.numParents.Keys - {parent}
      {
        var child := kids[j];
        SplitHead(kids, j);
        CountDown(q, removed + {parent}, child, kids[j + 1..], numParents);
        numParents := numParents[child := numParents[child] - 1];
      }
      assert kids[|kids|..] == [];
      children := children - {parent};
    }
    assert children == t0.children - {parent};
    RemovalEnds(q, removed, t0, parent, numParents);
    t := Tables(numParents, children);
  }

  // ---------- levels are rounds of peeling ----------

  /** After k rounds the parentless keys are the nodes of depth k. */
  lemma ZeroIsLevel(q: Problem, t: Tables, k: nat, x: Node)
    requires Left(q, Peeled(q.nodes, EdgesOf(q.pairs), k), t)
    ensures x in t.numParents && t.numParents[x] == 0
       <==> x in Peeled(q.nodes, EdgesOf(q.pairs), k + 1) && x !in Peeled(q.nodes, EdgesOf(q.pairs), k)
    ensures x in t.numParents && t.numParents[x] == 0 <==> x in q.nodes && HasDepth(EdgesOf(q.pairs), x, k)
  {
    hide HasDepth, ClosedUp;
    var g := EdgesOf(q.pairs);
    CountZeroIffParentsIn(q.pairs, x, Peeled(q.nodes, g, k));
    if x in q.nodes {
      LevelIffDepth(q.nodes, g, k, x);
    }
  }

  lemma NextIsLevel(q: Problem, t: Tables, levels: seq<seq<Node>>, level: seq<Node>)
    requires Left(q, Peeled(q.nodes, EdgesOf(q.pairs), |levels|), t)
    requires AreLevels(q.nodes, EdgesOf(q.pairs), levels)
    requires level != [] && Distinct(level) && forall x :: x in level <==> x in t.numParents && t.numParents[x] == 0
    ensures AreLevels(q.nodes, EdgesOf(q.pairs), levels + [level])
    ensures Peeled(q.nodes, EdgesOf(q.pairs), |levels|) + Elements(level)
         == Peeled(q.nodes, EdgesOf(q.pairs), |levels| + 1)
  {
    hide Left, HasDepth, Peeled, Distinct, EdgesOf;
    var g, k := EdgesOf(q.pairs), |levels|;
    PeeledGrows(q.nodes, g, k, k + 1);
    forall x
      ensures x in level <==> x in Peeled(q.nodes, g, k + 1) && x !in Peeled(q.nodes, g, k)
      ensures x in level <==> x in q.nodes && HasDepth(g, x, k)
    {
      ZeroIsLevel(q, t, k, x);
    }
  }

  lemma {:induction false} PeeledHasLevel(nodes: set<Node>, g: Graph, k: nat, x: Node) returns (j: nat)
    requires Within(g, nodes) && x in Peeled(nodes, g, k)
    ensures j < k && HasDepth(g, x, j)
  {
    if x in Peeled(nodes, g, k - 1) {
      j := PeeledHasLevel(nodes, g, k - 1, x);
    } else {
      j := k - 1;
      LevelIffDepth(nodes, g, j, x);
    }
  }

  lemma LevelsComplete(nodes: set<Node>, g: Graph, levels: seq<seq<Node>>, x: Node)
    requires Within(g, nodes) && AreLevels(nodes, g, levels)
    requires x in Peeled(nodes, g, |levels|)
    ensures exists k :: 0 <= k < |levels| && x in levels[k]
  {
    var j := PeeledHasLevel(nodes, g, |levels|, x);
    assert x in levels[j];
  }

  /** No parentless key is left: the levels are all there and the rest is the residue. */
  lemma LevelsConclude(q: Problem, t: Tables, levels: seq<seq<Node>>, end: LevelsEnd)
    requires Left(q, Peeled(q.nodes, EdgesOf(q.pairs), |levels|), t)
    requires forall x :: x in t.numParents ==> t.numParents[x] != 0
    requires AreLevels(q.nodes, EdgesOf(q.pairs), levels)
    requires end == if t.numParents != map[] then LevelsCycleError(t) else StopIteration
    ensures IsLevelsOf(q, levels, end)
  {
    hide Left, AreLevels, BelowCycle, HasDepth, Peeled, EdgesOf, Within;
    var g, gone := EdgesOf(q.pairs), Peeled(q.nodes, EdgesOf(q.pairs), |levels|);
    LeftFacts(q, gone, t);
    forall y | y in gone
      ensures exists d :: HasDepth(g, y, d)
    {
      var d := PeeledHasLevel(q.nodes, g, |levels|, y);
    }
    StuckIsResidue(q, gone, t);
    forall x | x in q.nodes && !BelowCycle(g, x)
      ensures exists k :: 0 <= k < |levels| && x in levels[k]
    {
      LevelsComplete(q.nodes, g, levels, x);
    }
  }

  lemma NothingPeeled(nodes: set<Node>, g: Graph)
    ensures Peeled(nodes, g, 0) == {} && AreLevels(nodes, g, [])
  {
  }

  lemma LaterDiffer(level: seq<Node>, i: nat)
    requires Distinct(level) && i < |level|
    ensures forall j :: i < j < |level| ==> level[j] != level[i]
  {
  }

  /** The levels in the order they are yielded, and how the generator ends. */
  method TopsortLevelsCore(ghost q: Problem, t0: Tables) returns (levels: seq<seq<Node>>, end: LevelsEnd)
    requires Left(q, {}, t0)
    ensures IsLevelsOf(q, levels, end)
  {
    hide *;
    ghost var g := EdgesOf(q.pairs);
    var t := t0;
    levels := [];
    NothingPeeled(q.nodes, g);
    while true
      invariant Left(q, Peeled(q.nodes, g, |levels|), t)
      invariant AreLevels(q.nodes, g, levels)
      decreases t.numParents.Keys
    {
      var level := ParentlessKeys(t.numParents);
      if level == [] {
        assert forall x :: x in t.numParents ==> t.numParents[x] == 0 ==> x in level;
        break;
      }
      ghost var gone, keys := Peeled(q.nodes, g, |levels|), t.numParents.Keys;
      NextIsLevel(q, t, levels, level);
      levels := levels + [level];
      assert gone + Elements(level[..0]) == gone;
      for i := 0 to |level|
        invariant Left(q, gone + Elements(level[..i]), t)
        invariant forall j :: i <= j < |level| ==> level[j] in t.numParents && t.numParents[level[j]] == 0
        invariant t.numParents.Keys <= keys && (i > 0 ==> level[0] !in t.numParents)
      {
        assert level[..i + 1] == level[..i] + [level[i]];
        assert gone + Elements(level[..i]) + {level[i]} == gone + Elements(level[..i + 1]);
        LaterDiffer(level, i);
        t := Strip(q, gone + Elements(level[..i]), t, level[i]);
      }
      assert level[..|level|] == level;
      assert level[0] in keys;
    }
    if t.numParents != map[] {
      end := LevelsCycleError(t);
    } else {
      end := StopIteration;
    }
    LevelsConclude(q, t, levels, end);
  }

  lemma LevelsEndTells(q: Problem, levels: seq<seq<Node>>, end: LevelsEnd)
    requires q.nodes == Endpoints(q.pairs) && IsLevelsOf(q, levels, end)
    ensures end.StopIteration? <==> Acyclic(EdgesOf(q.pairs))
  {
    hide AreLevels, BelowCycle;
    if end.StopIteration? {
      AcyclicIffNoneBelow(EdgesOf(q.pairs));
      forall x | BelowCycle(EdgesOf(q.pairs), x)
        ensures x in Endpoints(q.pairs)
      {
        BelowIsEndpoint(q.pairs, x);
      }
    } else {
      AcyclicIffNoneLeft(q, end.left);
    }
  }

  /** The pair-list front end: it ends normally iff the pairs have no cycle. */
  method TopsortLevels(pairs: Pairs) returns (levels: seq<seq<Node>>, end: LevelsEnd, ghost q: Problem)
    ensures q.pairs == pairs && q.nodes == Endpoints(pairs) && ChildListsOf(pairs, q.children0)
    ensures IsLevelsOf(q, levels, end)
    ensures end.StopIteration? <==> Acyclic(EdgesOf(pairs))
  {
    hide *;
    var t := BuildTables(pairs);
    q := Problem(Endpoints(pairs), pairs, t.children);
    BuiltTablesLeft(pairs, t);
    levels, end := TopsortLevelsCore(q, t);
    LevelsEndTells(q, levels, end);
  }
}
