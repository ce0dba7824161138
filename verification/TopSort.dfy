/** Dependency sorting of (parent, child) pairs into one flat list. */
module TopSort {
  import opened Graphs
  import opened DependencyTables

  datatype Outcome =
    | Sorted(answer: seq<Node>)
    | CycleError(done: seq<Node>, left: Tables)

  // ---------- what a sort must deliver ----------

  /** Every node once, every parent before each of its children, depths never falling. */
  ghost predicate IsDependencyOrder(nodes: set<Node>, g: Graph, answer: seq<Node>) {
    && Distinct(answer)
    && (forall x :: x in answer <==> x in nodes)
    && ParentsFirst(g, answer)
    && DepthsRise(g, answer)
  }

  ghost predicate ParentsFirst(g: Graph, answer: seq<Node>) {
    forall j :: 0 <= j < |answer| ==> ParentsIn(g, answer[j], Elements(answer[..j]))
  }

  /** Each listed node has a depth, and depths do not fall along the list. */
  ghost predicate DepthsRise(g: Graph, answer: seq<Node>) {
    exists depths: seq<nat> :: DepthsAre(g, answer, depths)
  }

  ghost predicate DepthsAre(g: Graph, answer: seq<Node>, depths: seq<nat>) {
    && |depths| == |answer|
    && (forall i :: 0 <= i < |depths| ==> HasDepth(g, answer[i], depths[i]))
    && (forall i, j :: 0 <= i <= j < |depths| ==> depths[i] <= depths[j])
  }

  /** Every element once, parents first and by depth; or an error that carries what could be
      sorted and exactly what could not. */
  ghost predicate IsTopsortOf(q: Problem, r: Outcome) {
    var g := EdgesOf(q.pairs);
    match r
    case Sorted(answer) => IsDependencyOrder(q.nodes, g, answer)
    case CycleError(done, left) =>
      && left.numParents != map[]
      && IsResidue(q, left)
      && IsDependencyOrder(q.nodes - left.numParents.Keys, g, done)
  }

  // ---------- the list side ----------

  ghost predicate Layered(nodes: set<Node>, g: Graph, answer: seq<Node>, depths: seq<nat>) {
    && |depths| == |answer|
    && (forall j :: 0 <= j < |depths| ==> answer[j] in Level(nodes, g, depths[j]))
    && (forall j, k :: 0 <= j <= k < |depths| ==> depths[j] <= depths[k])
  }

  /** Distinct nodes in dependency order, the first i of them removed. */
  ghost predicate ListInv(nodes: set<Node>, g: Graph, removed: set<Node>,
                          answer: seq<Node>, depths: seq<nat>, i: nat)
  {
    && i <= |answer| == |depths|
    && removed == Elements(answer[..i])
    && Distinct(answer)
    && (forall x :: x in answer ==> x in nodes)
    && ParentsFirst(g, answer)
    && Layered(nodes, g, answer, depths)
  }

  lemma ListedParentsShallow(nodes: set<Node>, g: Graph, answer: seq<Node>, depths: seq<nat>, i: nat, p: Node)
    requires i < |answer| && Layered(nodes, g, answer, depths) && p in answer[..i + 1]
    ensures p in Peeled(nodes, g, depths[i] + 1)
  {
    hide Peeled;
    var m :| 0 <= m <= i && answer[m] == p;
    PeeledGrows(nodes, g, depths[m] + 1, depths[i] + 1);
  }

  /** A node whose parents are all among the first i + 1, one of them the i-th, is one deeper
      than the i-th. */
  lemma ChildIsNextLevel(nodes: set<Node>, g: Graph, child: Node, answer: seq<Node>, depths: seq<nat>, i: nat)
    requires Within(g, nodes) && i < |answer| && (answer[i], child) in g
    requires Layered(nodes, g, answer, depths)
    requires ParentsIn(g, child, Elements(answer[..i + 1]))
    ensures child in Level(nodes, g, depths[i] + 1)
  {
    forall p | (p, child) in g
      ensures p in Peeled(nodes, g, depths[i] + 1)
    {
      ListedParentsShallow(nodes, g, answer, depths, i, p);
    }
    assert answer[i] !in Peeled(nodes, g, depths[i]);
  }

  lemma LayeredSnoc(nodes: set<Node>, g: Graph, x: Node, answer: seq<Node>, depths: seq<nat>, d: nat)
    requires Layered(nodes, g, answer, depths) && x in Level(nodes, g, d)
    requires depths == [] || depths[|depths| - 1] <= d
    ensures Layered(nodes, g, answer + [x], depths + [d])
  {
    hide Level;
  }

  lemma ParentsFirstSnoc(g: Graph, child: Node, answer: seq<Node>)
    requires ParentsFirst(g, answer) && ParentsIn(g, child, Elements(answer))
    ensures ParentsFirst(g, answer + [child])
  {
    var longer := answer + [child];
    forall j | 0 <= j < |longer|
      ensures ParentsIn(g, longer[j], Elements(longer[..j]))
    {
      assert longer[..j] == answer[..j];
      if j == |answer| {
        assert answer[..j] == answer;
      }
    }
  }

  lemma AppendChild(nodes: set<Node>, g: Graph, removed: set<Node>, child: Node,
                    answer: seq<Node>, depths: seq<nat>, i: nat)
    requires Within(g, nodes) && i < |answer| && (answer[i], child) in g && child !in answer
    requires ListInv(nodes, g, removed, answer, depths, i + 1)
    requires depths[|depths| - 1] <= depths[i] + 1
    requires ParentsIn(g, child, removed)
    ensures ListInv(nodes, g, removed, answer + [child], depths + [depths[i] + 1], i + 1)
  {
    hide Level, Peeled;
    ChildIsNextLevel(nodes, g, child, answer, depths, i);
    LayeredSnoc(nodes, g, child, answer, depths, depths[i] + 1);
    assert ParentsIn(g, child, Elements(answer)) by {
      assert forall p :: p in answer[..i + 1] ==> p in answer;
    }
    ParentsFirstSnoc(g, child, answer);
    hide Layered, ParentsFirst, ParentsIn;
    assert (answer + [child])[..i + 1] == answer[..i + 1];
    assert child in nodes;
  }

  lemma RootsListed(nodes: set<Node>, g: Graph, roots: seq<Node>, depths: seq<nat>)
    requires Distinct(roots) && forall x :: x in roots ==> x in nodes && ParentsIn(g, x, {})
    requires depths == seq(|roots|, _ => 0)
    ensures ListInv(nodes, g, {}, roots, depths, 0)
  {
    assert Elements(roots[..0]) == {};
    assert Peeled(nodes, g, 0) == {};
    forall j | 0 <= j < |roots|
      ensures roots[j] in Level(nodes, g, 0)
      ensures ParentsIn(g, roots[j], Elements(roots[..j]))
    {
      assert roots[j] in roots;
    }
  }

  lemma NextRemoved(nodes: set<Node>, g: Graph, removed: set<Node>, answer: seq<Node>, depths: seq<nat>, i: nat)
    requires ListInv(nodes, g, removed, answer, depths, i) && i < |answer|
    ensures ListInv(nodes, g, removed + {answer[i]}, answer, depths, i + 1)
    ensures answer[i] !in removed && answer[i] in nodes && answer[i] in answer
    ensures forall x :: x in removed ==> x in answer
  {
    hide ParentsFirst, Layered, Level;
    assert answer[..i + 1] == answer[..i] + [answer[i]];
    assert answer[i] in answer;
  }

  // ---------- list and dictionaries together ----------

  /** State of the loop over the growing list `answer` once its entries before i, the set
      `removed`, have been taken out of the dictionaries: the list holds exactly the nodes
      all of whose parents are gone. */
  ghost predicate KahnInv(q: Problem, removed: set<Node>, t: Tables, answer: seq<Node>, depths: seq<nat>, i: nat) {
    && Left(q, removed, t)
    && ListInv(q.nodes, EdgesOf(q.pairs), removed, answer, depths, i)
    && (forall x :: x in t.numParents ==> (x in answer <==> t.numParents[x] == 0))
    && (i < |answer| ==> depths[|depths| - 1] <= depths[i] + 1)
  }

  /** State while the children of answer[i] are being counted down. */
  ghost predicate RoundInv(q: Problem, removed: set<Node>, pending: seq<Node>, numParents: Counts,
                           answer: seq<Node>, depths: seq<nat>, i: nat)
  {
    && i < |answer| && Within(EdgesOf(q.pairs), q.nodes)
    && ListInv(q.nodes, EdgesOf(q.pairs), removed, answer, depths, i + 1)
    && depths[|depths| - 1] <= depths[i] + 1
    && CountingDown(q, removed, pending, numParents)
    && (forall x :: x in numParents ==> (x in answer <==> numParents[x] == 0))
    && (forall x :: x in pending ==> (answer[i], x) in EdgesOf(q.pairs))
  }

  lemma KahnStart(q: Problem, t: Tables, answer: seq<Node>, depths: seq<nat>)
    requires Left(q, {}, t)
    requires Distinct(answer) && forall x :: x in answer <==> x in t.numParents && t.numParents[x] == 0
    requires depths == seq(|answer|, _ => 0)
    ensures KahnInv(q, {}, t, answer, depths, 0)
  {
    forall x | x in answer
      ensures x in q.nodes && ParentsIn(EdgesOf(q.pairs), x, {})
    {
      CountZeroIffParentsIn(q.pairs, x, {});
    }
    hide ProblemOk, EdgesOf;
    RootsListed(q.nodes, EdgesOf(q.pairs), answer, depths);
    hide ListInv;
  }

  lemma KahnBounds(q: Problem, removed: set<Node>, t: Tables, answer: seq<Node>, depths: seq<nat>, i: nat)
    requires KahnInv(q, removed, t, answer, depths, i)
    ensures i <= |answer| == |depths| && |answer| <= |q.nodes|
  {
    DistinctFits(answer, q.nodes);
  }

  lemma RoundStart(q: Problem, removed: set<Node>, t: Tables, answer: seq<Node>, depths: seq<nat>, i: nat)
    requires KahnInv(q, removed, t, answer, depths, i) && i < |answer|
    ensures answer[i] in t.numParents && t.numParents[answer[i]] == 0
    ensures RoundInv(q, removed + {answer[i]}, Kids(t.children, answer[i]), t.numParents - {answer[i]},
                     answer, depths, i)
  {
    hide ListInv, Left, EdgesOf, Within, Kids;
    NextRemoved(q.nodes, EdgesOf(q.pairs), removed, answer, depths, i);
    LeftFacts(q, removed, t);
    assert answer[i] in t.numParents;
    RemovalStarts(q, removed, t, answer[i]);
    hide CountingDown, CountIn;
    ListBounds(q.nodes, EdgesOf(q.pairs), removed, answer, depths, i);
  }

  /** The list gains the child whose last parent has just been counted off. */
  lemma ReadyChildJoins(q: Problem, removed: set<Node>, child: Node, answer: seq<Node>, depths: seq<nat>, i: nat)
    requires i < |answer| && Within(EdgesOf(q.pairs), q.nodes)
    requires ListInv(q.nodes, EdgesOf(q.pairs), removed, answer, depths, i + 1)
    requires depths[|depths| - 1] <= depths[i] + 1
    requires (answer[i], child) in EdgesOf(q.pairs) && child !in answer && CountIn(q.pairs, child, removed) == 0
    ensures ListInv(q.nodes, EdgesOf(q.pairs), removed, answer + [child], depths + [depths[i] + 1], i + 1)
  {
    hide ListInv, EdgesOf, Within;
    CountZeroIffParentsIn(q.pairs, child, removed);
    AppendChild(q.nodes, EdgesOf(q.pairs), removed, child, answer, depths, i);
  }

  lemma RoundStep(q: Problem, removed: set<Node>, child: Node, pending: seq<Node>, numParents: Counts,
                  answer: seq<Node>, depths: seq<nat>, i: nat)
    requires RoundInv(q, removed, [child] + pending, numParents, answer, depths, i)
    ensures child in numParents && i < |answer| == |depths|
    ensures var next := numParents[child := numParents[child] - 1];
      if next[child] == 0
      then RoundInv(q, removed, pending, next, answer + [child], depths + [depths[i] + 1], i)
      else RoundInv(q, removed, pending, next, answer, depths, i)
  {
    hide ListInv, EdgesOf, Within, CountingDown, CountIn;
    ListBounds(q.nodes, EdgesOf(q.pairs), removed, answer, depths, i + 1);
    CountDown(q, removed, child, pending, numParents);
    PendingRest(EdgesOf(q.pairs), answer[i], child, pending);
    if numParents[child] == 1 {
      ReadyChildJoins(q, removed, child, answer, depths, i);
      assert (answer + [child])[i] == answer[i];
    }
  }

  lemma PendingRest(g: Graph, parent: Node, child: Node, pending: seq<Node>)
    requires forall x :: x in [child] + pending ==> (parent, x) in g
    ensures (parent, child) in g && forall x :: x in pending ==> (parent, x) in g
  {
    var pended := [child] + pending;
    assert pended[0] in pended;
    assert forall x :: x in pending ==> x in pended;
  }

  lemma RoundEnd(q: Problem, removed: set<Node>, t: Tables, answer0: seq<Node>, depths0: seq<nat>,
                 parent: Node, numParents: Counts, answer: seq<Node>, depths: seq<nat>, i: nat)
    requires KahnInv(q, removed, t, answer0, depths0, i)
    requires parent in t.numParents && t.numParents[parent] == 0
    requires RoundInv(q, removed + {parent}, [], numParents, answer, depths, i)
    ensures KahnInv(q, removed + {parent}, Tables(numParents, t.children - {parent}), answer, depths, i + 1)
  {
    hide ListInv, Left, CountingDown, Within, EdgesOf;
    RemovalEnds(q, removed, t, parent, numParents);
    ListBounds(q.nodes, EdgesOf(q.pairs), removed + {parent}, answer, depths, i + 1);
  }

  lemma ListBounds(nodes: set<Node>, g: Graph, removed: set<Node>, answer: seq<Node>, depths: seq<nat>, i: nat)
    requires ListInv(nodes, g, removed, answer, depths, i)
    ensures i <= |answer| == |depths|
    ensures i > 0 && i < |answer| ==> depths[i - 1] <= depths[i]
  {
  }

  /** One round of the loop over `answer`: its i-th entry leaves the dictionaries, its
      children are counted down, and those without parents left join the list. */
  method TakeOut(ghost q: Problem, ghost removed: set<Node>, t0: Tables,
                 answer0: seq<Node>, ghost depths0: seq<nat>, i: nat)
    returns (t: Tables, answer: seq<Node>, ghost depths: seq<nat>)
    requires KahnInv(q, removed, t0, answer0, depths0, i) && i < |answer0|
    ensures KahnInv(q, removed + {answer0[i]}, t, answer, depths, i + 1)
  {
    hide KahnInv, RoundInv;
    answer, depths := answer0, depths0;
    var numParents, children := t0.numParents, t0.children;
    var parent := answer[i];
    ghost var gone := removed + {parent};
    RoundStart(q, removed, t0, answer, depths, i);
    numParents := numParents - {parent};
    if parent in children {
      var kids := children[parent];
      assert kids[0..] == kids;
      for j := 0 to |kids|
        invariant RoundInv(q, gone, kids[j..], numParents, answer, depths, i)
      {
        var child := kids[j];
        SplitHead(kids, j);
        RoundStep(q, gone, child, kids[j + 1..], numParents, answer, depths, i);
        numParents := numParents[child := numParents[child] - 1];
        if numParents[child] == 0 {
          answer := answer + [child];
          depths := depths + [depths[i] + 1];
        }
      }
      assert kids[|kids|..] == [];
      children := children - {parent};
    }
    assert children == t0.children - {parent};
    RoundEnd(q, removed, t0, answer0, depths0, parent, numParents, answer, depths, i);
    t := Tables(numParents, children);
  }

  lemma ListIsOrder(q: Problem, removed: set<Node>, answer: seq<Node>, depths: seq<nat>)
    requires Within(EdgesOf(q.pairs), q.nodes)
    requires ListInv(q.nodes, EdgesOf(q.pairs), removed, answer, depths, |answer|)
    ensures forall x :: x in answer <==> x in removed
    ensures IsDependencyOrder(removed, EdgesOf(q.pairs), answer)
    ensures removed <= q.nodes && forall y :: y in removed ==> exists d :: HasDepth(EdgesOf(q.pairs), y, d)
  {
    hide HasDepth, EdgesOf, Level;
    var g := EdgesOf(q.pairs);
    assert answer[..|answer|] == answer;
    forall j | 0 <= j < |answer|
      ensures HasDepth(g, answer[j], depths[j])
    {
      LevelIffDepth(q.nodes, g, depths[j], answer[j]);
    }
    assert DepthsAre(g, answer, depths);
    forall y | y in removed
      ensures exists d :: HasDepth(g, y, d)
    {
      var j :| 0 <= j < |answer| && answer[j] == y;
      assert HasDepth(g, answer[j], depths[j]);
    }
  }

  /** When every listed node has been taken out, the list is in order and the rest is exactly
      what lies on or below a cycle. */
  lemma KahnEnd(q: Problem, removed: set<Node>, t: Tables, answer: seq<Node>, depths: seq<nat>)
    requires KahnInv(q, removed, t, answer, depths, |answer|)
    ensures IsResidue(q, t)
    ensures IsDependencyOrder(q.nodes - t.numParents.Keys, EdgesOf(q.pairs), answer)
  {
    hide ListInv, Left, IsDependencyOrder, IsResidue;
    LeftFacts(q, removed, t);
    ListIsOrder(q, removed, answer, depths);
    StuckIsResidue(q, removed, t);
  }

  lemma TopsortConcludes(q: Problem, t: Tables, answer: seq<Node>, r: Outcome)
    requires q.nodes == Endpoints(q.pairs) && IsResidue(q, t)
    requires IsDependencyOrder(q.nodes - t.numParents.Keys, EdgesOf(q.pairs), answer)
    requires r == if t.numParents != map[] then CycleError(answer, t) else Sorted(answer)
    ensures IsTopsortOf(q, r)
    ensures r.Sorted? <==> Acyclic(EdgesOf(q.pairs))
  {
    hide IsDependencyOrder;
    AcyclicIffNoneLeft(q, t);
    hide IsResidue;
    if t.numParents == map[] {
      assert q.nodes - t.numParents.Keys == q.nodes;
    }
  }

  /** Sorting succeeds iff the pairs (repeats and self-loops allowed) have no cycle. The ghost
      result is the problem solved: the pairs, their endpoints, the child lists built. */
  method Topsort(pairs: Pairs) returns (r: Outcome, ghost q: Problem)
    ensures q.pairs == pairs && q.nodes == Endpoints(pairs) && ChildListsOf(pairs, q.children0)
    ensures IsTopsortOf(q, r)
    ensures r.Sorted? <==> Acyclic(EdgesOf(pairs))
  {
    hide *;
    var t := BuildTables(pairs);
    q := Problem(Endpoints(pairs), pairs, t.children);
    BuiltTablesLeft(pairs, t);
    var answer := ParentlessKeys(t.numParents);
    ghost var depths: seq<nat> := seq(|answer|, _ => 0);
    ghost var removed: set<Node> := {};
    KahnStart(q, t, answer, depths);
    var i := 0;
    while i < |answer|
      invariant i <= |answer|
      invariant KahnInv(q, removed, t, answer, depths, i)
      decreases |q.nodes| - i
    {
      ghost var gone := removed + {answer[i]};
      KahnBounds(q, removed, t, answer, depths, i);
      t, answer, depths := TakeOut(q, removed, t, answer, depths, i);
      removed := gone;
      i := i + 1;
      KahnBounds(q, removed, t, answer, depths, i);
    }
    if t.numParents != map[] {
      r := CycleError(answer, t);
    } else {
      r := Sorted(answer);
    }
    KahnEnd(q, removed, t, answer, depths);
    TopsortConcludes(q, t, answer, r);
  }

  /** A failed sort exhibits a cycle among the keys it leaves behind. */
  lemma LeftoverHasCycle(q: Problem, r: Outcome) returns (c: seq<Node>)
    requires q.nodes == Endpoints(q.pairs) && r.CycleError? && IsTopsortOf(q, r)
    ensures IsSimpleCycle(EdgesOf(q.pairs), c) && forall x :: x in c ==> x in r.left.numParents
  {
    hide IsDependencyOrder;
    var x :| x in r.left.numParents;
    c := CycleAmongBelow(EdgesOf(q.pairs), x);
    forall y | y in c
      ensures y in r.left.numParents
    {
      BelowIsEndpoint(q.pairs, y);
    }
  }
}
