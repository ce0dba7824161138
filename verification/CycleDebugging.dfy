/** Cycle finding as the debugging aid of dependency sorting: what it yields from the pairs, or
    from the dictionaries a failed sort leaves behind. */
module CycleDebugging {
  import opened Graphs
  import opened Rotations
  import opened DependencyTables
  import opened TopSort
  import FindCycles

  lemma OnCycleIsBelow(g: Graph, c: seq<Node>, i: nat)
    requires IsCycle(g, c) && i < |c|
    ensures BelowCycle(g, c[i])
  {
    var w := c[..i + 1];
    assert IsWalkTo(g, w, c[i]) && w[0] == c[0];
  }

  /** The lists left behind hold the edges out of what lies on or below a cycle, and no others. */
  lemma LeftEdgeIff(q: Problem, left: Tables, a: Node, b: Node)
    requires q.nodes == Endpoints(q.pairs) && ChildListsOf(q.pairs, q.children0) && IsResidue(q, left)
    ensures (a, b) in FindCycles.EdgesOf(left.children) <==>
      (a, b) in EdgesOf(q.pairs) && BelowCycle(EdgesOf(q.pairs), a)
  {
    hide BelowCycle;
    FindCycles.EdgeIff(left.children, a, b);
    ChildIffEdge(q.pairs, a, b);
    EdgesWithinEndpoints(q.pairs);
    assert Kids(q.children0, a) == ChildrenOf(q.pairs, a);
    hide FindCycles.EdgesOf, EdgesOf, ChildrenOf;
    if BelowCycle(EdgesOf(q.pairs), a) {
      BelowIsEndpoint(q.pairs, a);
    }
  }

  lemma SameCycles(q: Problem, left: Tables, c: seq<Node>)
    requires q.nodes == Endpoints(q.pairs) && ChildListsOf(q.pairs, q.children0) && IsResidue(q, left)
    ensures IsCycle(FindCycles.EdgesOf(left.children), c) <==> IsCycle(EdgesOf(q.pairs), c)
  {
    var g, rest := EdgesOf(q.pairs), FindCycles.EdgesOf(left.children);
    hide IsResidue, ChildListsOf, EdgesOf, FindCycles.EdgesOf, BelowCycle;
    forall a, b
      ensures (a, b) in rest <==> (a, b) in g && BelowCycle(g, a)
    {
      LeftEdgeIff(q, left, a, b);
    }
    if IsCycle(g, c) {
      forall i | 0 <= i < |c|
        ensures BelowCycle(g, c[i])
      {
        OnCycleIsBelow(g, c, i);
      }
    }
  }

  /** Finding cycles among the child lists a failed sort leaves behind finds the cycles of the
      sorted pairs: all of them, nothing else, and at least one. */
  lemma LeftoverTellsCycles(q: Problem, r: Outcome, cycles: seq<seq<Node>>)
    requires q.nodes == Endpoints(q.pairs) && ChildListsOf(q.pairs, q.children0)
    requires IsTopsortOf(q, r) && r.CycleError?
    ensures FindCycles.AreCyclesOf(FindCycles.EdgesOf(r.left.children), cycles)
        <==> FindCycles.AreCyclesOf(EdgesOf(q.pairs), cycles)
    ensures FindCycles.AreCyclesOf(EdgesOf(q.pairs), cycles) ==> cycles != []
  {
    hide *;
    var g, rest := EdgesOf(q.pairs), FindCycles.EdgesOf(r.left.children);
    ResidueOf(q, r);
    forall c
      ensures IsSimpleCycle(rest, c) <==> IsSimpleCycle(g, c)
    {
      SameSimple(q, r.left, c);
    }
    SameYields(rest, g, cycles);
    var c := LeftoverHasCycle(q, r);
    SomeYield(g, cycles, c);
  }

  lemma ResidueOf(q: Problem, r: Outcome)
    requires IsTopsortOf(q, r) && r.CycleError?
    ensures IsResidue(q, r.left)
  {
  }

  lemma SameSimple(q: Problem, left: Tables, c: seq<Node>)
    requires q.nodes == Endpoints(q.pairs) && ChildListsOf(q.pairs, q.children0) && IsResidue(q, left)
    ensures IsSimpleCycle(FindCycles.EdgesOf(left.children), c) <==> IsSimpleCycle(EdgesOf(q.pairs), c)
  {
    SameCycles(q, left, c);
    hide IsCycle, IsResidue, ChildListsOf;
  }

  lemma SameYields(g: Graph, h: Graph, cycles: seq<seq<Node>>)
    requires forall c :: IsSimpleCycle(g, c) <==> IsSimpleCycle(h, c)
    ensures FindCycles.AreCyclesOf(g, cycles) <==> FindCycles.AreCyclesOf(h, cycles)
  {
    hide IsSimpleCycle, IsRotation;
  }

  lemma SomeYield(g: Graph, cycles: seq<seq<Node>>, c: seq<Node>)
    requires IsSimpleCycle(g, c)
    ensures FindCycles.AreCyclesOf(g, cycles) ==> cycles != []
  {
    hide IsSimpleCycle, IsRotation;
  }

  /** A sort gets through iff looking for cycles among the same edges yields nothing. */
  lemma SortedIffNothingFound(q: Problem, r: Outcome, cycles: seq<seq<Node>>)
    requires q.nodes == Endpoints(q.pairs) && IsTopsortOf(q, r)
    requires FindCycles.AreCyclesOf(EdgesOf(q.pairs), cycles)
    ensures r.Sorted? <==> cycles == []
  {
    hide IsRotation;
    if r.CycleError? {
      var c := LeftoverHasCycle(q, r);
      SomeYield(EdgesOf(q.pairs), cycles, c);
    } else if cycles != [] {
      assert FindCycles.SoundYields(EdgesOf(q.pairs), cycles);
      assert IsSimpleCycle(EdgesOf(q.pairs), cycles[0]);
      OnCycleIsBelow(EdgesOf(q.pairs), cycles[0], 0);
      BelowIsEndpoint(q.pairs, cycles[0][0]);
      SortedHasNoneBelow(q, r, cycles[0][0]);
    }
  }

  lemma SortedHasNoneBelow(q: Problem, r: Outcome, x: Node)
    requires q.nodes == Endpoints(q.pairs) && IsTopsortOf(q, r) && r.Sorted? && x in q.nodes
    ensures !BelowCycle(EdgesOf(q.pairs), x)
  {
    hide BelowCycle, HasDepth, ParentsFirst;
    EdgesWithinEndpoints(q.pairs);
    var depths :| DepthsAre(EdgesOf(q.pairs), r.answer, depths);
    var i :| 0 <= i < |r.answer| && r.answer[i] == x;
    DepthMeansNotBelow(q.nodes, EdgesOf(q.pairs), x, depths[i]);
  }
}
