/** The two dictionaries of dependency sorting: how many parents each element still has, and
    which children each parent still has to count down. */
module DependencyTables {
  import opened Graphs

  type Pairs = seq<(Node, Node)>

  type Counts = map<Node, int>
  type ChildLists = map<Node, seq<Node>>

  datatype Tables = Tables(numParents: Counts, children: ChildLists)

  /** The elements to sort, their (parent, child) pairs, and the child lists as first built. */
  datatype Problem = Problem(nodes: set<Node>, pairs: Pairs, children0: ChildLists)

  function EdgesOf(pairs: Pairs): Graph {
    set e | e in pairs
  }

  /** Every parent and every child. */
  ghost function Endpoints(pairs: Pairs): set<Node> {
    if pairs == [] then {}
    else
      var e := pairs[|pairs| - 1];
      Endpoints(pairs[..|pairs| - 1]) + {e.0, e.1}
  }

  lemma {:induction false} EdgesWithinEndpoints(pairs: Pairs)
    ensures Within(EdgesOf(pairs), Endpoints(pairs))
  {
    if pairs != [] {
      var init, e := pairs[..|pairs| - 1], pairs[|pairs| - 1];
      EdgesWithinEndpoints(init);
      assert pairs == init + [e];
    }
  }

  lemma BelowIsEndpoint(pairs: Pairs, x: Node)
    requires BelowCycle(EdgesOf(pairs), x)
    ensures x in Endpoints(pairs)
  {
    var c, w :| IsCycle(EdgesOf(pairs), c) && IsWalkTo(EdgesOf(pairs), w, x) && w[0] == c[0];
    assert (c[|c| - 1], c[0]) in EdgesOf(pairs);
    EdgesWithinEndpoints(pairs);
    WalkStaysWithin(Endpoints(pairs), EdgesOf(pairs), w);
  }

  // ---------- counting pairs ----------

  /** How many pairs make x a child of a parent outside `removed` (duplicates count). */
  ghost function CountIn(pairs: Pairs, x: Node, removed: set<Node>): nat {
    if pairs == [] then 0
    else
      var e := pairs[|pairs| - 1];
      CountIn(pairs[..|pairs| - 1], x, removed) + if e.1 == x && e.0 !in removed then 1 else 0
  }

  ghost function ChildrenOf(pairs: Pairs, p: Node): seq<Node> {
    if pairs == [] then []
    else
      var e := pairs[|pairs| - 1];
      ChildrenOf(pairs[..|pairs| - 1], p) + if e.0 == p then [e.1] else []
  }

  lemma {:induction false} CountZeroIffParentsIn(pairs: Pairs, x: Node, removed: set<Node>)
    ensures CountIn(pairs, x, removed) == 0 <==> ParentsIn(EdgesOf(pairs), x, removed)
  {
    if pairs != [] {
      var init, e := pairs[..|pairs| - 1], pairs[|pairs| - 1];
      CountZeroIffParentsIn(init, x, removed);
      assert pairs == init + [e];
      assert EdgesOf(pairs) == EdgesOf(init) + {e};
    }
  }

  /** Removing a parent takes off one count per occurrence in its child list. */
  lemma {:induction false} CountAfterRemoving(pairs: Pairs, x: Node, removed: set<Node>, p: Node)
    requires p !in removed
    ensures CountIn(pairs, x, removed)
         == CountIn(pairs, x, removed + {p}) + multiset(ChildrenOf(pairs, p))[x]
  {
    if pairs != [] {
      CountAfterRemoving(pairs[..|pairs| - 1], x, removed, p);
    }
  }

  lemma {:induction false} ChildIffEdge(pairs: Pairs, p: Node, x: Node)
    ensures x in ChildrenOf(pairs, p) <==> (p, x) in EdgesOf(pairs)
  {
    if pairs != [] {
      var init, e := pairs[..|pairs| - 1], pairs[|pairs| - 1];
      ChildIffEdge(init, p, x);
      assert pairs == init + [e];
    }
  }

  lemma {:induction false} NoCountOutside(pairs: Pairs, x: Node)
    requires x !in Endpoints(pairs)
    ensures CountIn(pairs, x, {}) == 0 && ChildrenOf(pairs, x) == []
  {
    if pairs != [] {
      NoCountOutside(pairs[..|pairs| - 1], x);
    }
  }

  // ---------- building the dictionaries ----------

  /** One count per element: the number of pairs that make it a child. */
  ghost predicate CountsOf(pairs: Pairs, numParents: Counts) {
    && numParents.Keys == Endpoints(pairs)
    && (forall x :: x in numParents ==> numParents[x] == CountIn(pairs, x, {}))
  }

  /** Each parent with children has them listed in pair order; nothing else has a list. */
  ghost predicate ChildListsOf(pairs: Pairs, children: ChildLists) {
    && (forall p :: p in children ==> p in Endpoints(pairs) && children[p] != [])
    && (forall p :: Kids(children, p) == ChildrenOf(pairs, p))
  }

  lemma SnocTables(pairs: Pairs, parent: Node, child: Node, x: Node)
    ensures var all := pairs + [(parent, child)];
      && Endpoints(all) == Endpoints(pairs) + {parent, child}
      && CountIn(all, x, {}) == CountIn(pairs, x, {}) + (if x == child then 1 else 0)
      && ChildrenOf(all, x) == ChildrenOf(pairs, x) + (if x == parent then [child] else [])
  {
    var all := pairs + [(parent, child)];
    assert all[..|all| - 1] == pairs;
  }

  method CountPair(ghost pairs: Pairs, numParents0: Counts, parent: Node, child: Node) returns (numParents: Counts)
    requires CountsOf(pairs, numParents0)
    ensures CountsOf(pairs + [(parent, child)], numParents)
  {
    hide Endpoints, CountIn;
    numParents := numParents0;
    if parent !in numParents {
      numParents := numParents[parent := 0];
    }
    if child !in numParents {
      numParents := numParents[child := 0];
    }
    numParents := numParents[child := numParents[child] + 1];
    SnocTables(pairs, parent, child, child);
    forall x | x in numParents
      ensures numParents[x] == CountIn(pairs + [(parent, child)], x, {})
    {
      SnocTables(pairs, parent, child, x);
      if x !in numParents0 {
        NoCountOutside(pairs, x);
      }
    }
  }

  method ListPair(ghost pairs: Pairs, children0: ChildLists, parent: Node, child: Node) returns (children: ChildLists)
    requires ChildListsOf(pairs, children0)
    ensures ChildListsOf(pairs + [(parent, child)], children)
  {
    hide Endpoints, ChildrenOf;
    children := children0;
    if parent !in children {
      children := children[parent := []];
    }
    children := children[parent := children[parent] + [child]];
    forall x
      ensures Kids(children, x) == ChildrenOf(pairs + [(parent, child)], x)
      ensures x in children ==> x in Endpoints(pairs + [(parent, child)])
    {
      SnocTables(pairs, parent, child, x);
    }
  }

  method BuildTables(pairs: Pairs) returns (t: Tables)
    ensures CountsOf(pairs, t.numParents) && ChildListsOf(pairs, t.children)
  {
    var numParents: Counts, children: ChildLists := map[], map[];
    for i := 0 to |pairs|
      invariant CountsOf(pairs[..i], numParents) && ChildListsOf(pairs[..i], children)
    {
      hide *;
      var (parent, child) := pairs[i];
      assert pairs[..i + 1] == pairs[..i] + [(parent, child)];
      numParents := CountPair(pairs[..i], numParents, parent, child);
      children := ListPair(pairs[..i], children, parent, child);
    }
    assert pairs[..|pairs|] == pairs;
    t := Tables(numParents, children);
  }

  /** The keys with no parent left, in whatever order the dictionary yields them. */
  method ParentlessKeys(numParents: Counts) returns (zeros: seq<Node>)
    ensures Distinct(zeros)
    ensures forall x :: x in zeros <==> x in numParents && numParents[x] == 0
  {
    zeros := [];
    var keys := numParents.Keys;
    while keys != {}
      invariant keys <= numParents.Keys
      invariant Distinct(zeros)
      invariant forall x :: x in zeros <==> x in numParents && x !in keys && numParents[x] == 0
      decreases keys
    {
      var x :| x in keys;
      keys := keys - {x};
      if numParents[x] == 0 {
        zeros := zeros + [x];
      }
    }
  }

  // ---------- the dictionaries while elements are taken out ----------

  /** The child lists describe the pairs; they may come in any order, and a childless parent
      may have an empty list or none. */
  ghost predicate ProblemOk(q: Problem) {
    && Within(EdgesOf(q.pairs), q.nodes)
    && q.children0.Keys <= q.nodes
    && forall p :: p in q.nodes ==> multiset(Kids(q.children0, p)) == multiset(ChildrenOf(q.pairs, p))
  }

  ghost predicate CountsLeft(q: Problem, removed: set<Node>, numParents: Counts) {
    && numParents.Keys == q.nodes - removed
    && (forall x :: x in numParents ==> numParents[x] == CountIn(q.pairs, x, removed))
  }

  /** Every removed element had all its parents removed too. */
  ghost predicate ClosedUp(pairs: Pairs, removed: set<Node>) {
    forall x :: x in removed ==> CountIn(pairs, x, removed) == 0
  }

  /** The dictionaries describe what is left once the parent-closed set `removed` is gone. */
  ghost predicate Left(q: Problem, removed: set<Node>, t: Tables) {
    && ProblemOk(q)
    && CountsLeft(q, removed, t.numParents)
    && t.children == q.children0 - removed
    && ClosedUp(q.pairs, removed)
  }

  /** As Left, but the children `pending` of the last removed parent are still to be counted
      down. */
  ghost predicate CountingDown(q: Problem, removed: set<Node>, pending: seq<Node>, numParents: Counts) {
    && numParents.Keys == q.nodes - removed
    && (forall x :: x in numParents ==> numParents[x] == CountIn(q.pairs, x, removed) + multiset(pending)[x])
    && (forall x :: x in pending ==> x in numParents)
  }

  /** A child of an element not yet removed still has a positive count. */
  lemma KidIsLaterChild(q: Problem, removed: set<Node>, t: Tables, parent: Node, x: Node)
    requires Left(q, removed, t) && parent in t.numParents && x in Kids(t.children, parent)
    ensures (parent, x) in EdgesOf(q.pairs) && x in t.numParents && t.numParents[x] > 0
  {
    assert x in multiset(Kids(q.children0, parent)) && x in multiset(ChildrenOf(q.pairs, parent));
    ChildIffEdge(q.pairs, parent, x);
    CountZeroIffParentsIn(q.pairs, x, removed);
  }

  /** An element without parents is deleted: its children are pending. */
  lemma RemovalStarts(q: Problem, removed: set<Node>, t: Tables, parent: Node)
    requires Left(q, removed, t) && parent in t.numParents && t.numParents[parent] == 0
    ensures CountingDown(q, removed + {parent}, Kids(t.children, parent), t.numParents - {parent})
    ensures forall x :: x in Kids(t.children, parent) ==> (parent, x) in EdgesOf(q.pairs)
  {
    var kids := Kids(t.children, parent);
    assert kids == Kids(q.children0, parent);
    forall x
      ensures CountIn(q.pairs, x, removed) == CountIn(q.pairs, x, removed + {parent}) + multiset(kids)[x]
    {
      CountAfterRemoving(q.pairs, x, removed, parent);
    }
    forall x | x in kids
      ensures x in t.numParents - {parent} && (parent, x) in EdgesOf(q.pairs)
    {
      KidIsLaterChild(q, removed, t, parent, x);
    }
  }

  lemma CountDown(q: Problem, removed: set<Node>, child: Node, pending: seq<Node>, numParents: Counts)
    requires CountingDown(q, removed, [child] + pending, numParents)
    ensures child in numParents && numParents[child] > 0
    ensures CountingDown(q, removed, pending, numParents[child := numParents[child] - 1])
    ensures numParents[child] == 1 ==> CountIn(q.pairs, child, removed) == 0
  {
    var pended := [child] + pending;
    assert pended[0] in pended;
    assert forall x :: x in pending ==> x in pended;
    assert multiset(pended) == multiset{child} + multiset(pending);
  }

  lemma RemovalEnds(q: Problem, removed: set<Node>, t: Tables, parent: Node, numParents: Counts)
    requires Left(q, removed, t) && parent in t.numParents && t.numParents[parent] == 0
    requires CountingDown(q, removed + {parent}, [], numParents)
    ensures Left(q, removed + {parent}, Tables(numParents, t.children - {parent}))
    ensures forall x :: x in t.numParents && x != parent ==> x in numParents && 0 <= numParents[x] <= t.numParents[x]
  {
    var gone := removed + {parent};
    NothingPending(q, gone, numParents);
    CountsFall(q.pairs, removed, parent);
    RemovalStaysClosed(q.pairs, removed, parent);
    hide ClosedUp, CountingDown;
    assert t.children - {parent} == q.children0 - gone;
  }

  lemma NothingPending(q: Problem, removed: set<Node>, numParents: Counts)
    requires CountingDown(q, removed, [], numParents)
    ensures CountsLeft(q, removed, numParents)
  {
    var nothing: seq<Node> := [];
    assert multiset(nothing) == multiset{};
  }

  lemma CountsFall(pairs: Pairs, removed: set<Node>, p: Node)
    requires p !in removed
    ensures forall x :: CountIn(pairs, x, removed + {p}) <= CountIn(pairs, x, removed)
  {
    forall x
      ensures CountIn(pairs, x, removed + {p}) <= CountIn(pairs, x, removed)
    {
      CountAfterRemoving(pairs, x, removed, p);
    }
  }

  lemma RemovalStaysClosed(pairs: Pairs, removed: set<Node>, p: Node)
    requires ClosedUp(pairs, removed) && p !in removed && CountIn(pairs, p, removed) == 0
    ensures ClosedUp(pairs, removed + {p})
  {
    CountsFall(pairs, removed, p);
  }

  lemma LeftFacts(q: Problem, removed: set<Node>, t: Tables)
    requires Left(q, removed, t)
    ensures Within(EdgesOf(q.pairs), q.nodes)
    ensures CountsLeft(q, removed, t.numParents) && t.children == q.children0 - removed
  {
  }

  /** Everything is left to begin with. */
  lemma BuiltTablesLeft(pairs: Pairs, t: Tables)
    requires CountsOf(pairs, t.numParents) && ChildListsOf(pairs, t.children)
    ensures Left(Problem(Endpoints(pairs), pairs, t.children), {}, t)
  {
    EdgesWithinEndpoints(pairs);
  }

  lemma SplitHead<T>(s: seq<T>, j: nat)
    requires j < |s|
    ensures s[j..] == [s[j]] + s[j + 1..]
  {
  }

  // ---------- what cannot be taken out ----------

  /** What is left in the dictionaries when a sort gets stuck: exactly the elements on or
      below a cycle, counting only parents that are themselves left, with untouched child
      lists. */
  ghost predicate IsResidue(q: Problem, t: Tables) {
    && (forall x :: x in t.numParents <==> x in q.nodes && BelowCycle(EdgesOf(q.pairs), x))
    && (forall x :: x in t.numParents ==> t.numParents[x] == CountIn(q.pairs, x, q.nodes - t.numParents.Keys) > 0)
    && t.children == q.children0 - (q.nodes - t.numParents.Keys)
  }

  lemma {:induction false} StuckNeverPeeled(q: Problem, removed: set<Node>, x: Node, k: nat)
    requires Within(EdgesOf(q.pairs), q.nodes)
    requires forall y :: y in q.nodes && y !in removed ==> CountIn(q.pairs, y, removed) > 0
    requires x in q.nodes && x !in removed
    ensures x !in Peeled(q.nodes, EdgesOf(q.pairs), k)
    decreases k
  {
    if k > 0 {
      CountZeroIffParentsIn(q.pairs, x, removed);
      var p :| (p, x) in EdgesOf(q.pairs) && p !in removed;
      StuckNeverPeeled(q, removed, p, k - 1);
    }
  }

  lemma RemovedNotBelow(q: Problem, removed: set<Node>, x: Node)
    requires Within(EdgesOf(q.pairs), q.nodes) && x in removed
    requires forall y :: y in removed ==> exists d :: HasDepth(EdgesOf(q.pairs), y, d)
    requires removed <= q.nodes
    ensures !BelowCycle(EdgesOf(q.pairs), x)
  {
    var d :| HasDepth(EdgesOf(q.pairs), x, d);
    DepthMeansNotBelow(q.nodes, EdgesOf(q.pairs), x, d);
  }

  /** When nothing parentless is left and everything removed has a depth, the rest is the
      residue. */
  lemma StuckIsResidue(q: Problem, removed: set<Node>, t: Tables)
    requires Left(q, removed, t) && removed <= q.nodes
    requires forall x :: x in t.numParents ==> t.numParents[x] != 0
    requires forall y :: y in removed ==> exists d :: HasDepth(EdgesOf(q.pairs), y, d)
    ensures IsResidue(q, t) && removed == q.nodes - t.numParents.Keys
  {
    hide Left, HasDepth, BelowCycle, Within, EdgesOf;
    LeftFacts(q, removed, t);
    assert removed == q.nodes - t.numParents.Keys;
    forall x | x in q.nodes
      ensures x in t.numParents <==> BelowCycle(EdgesOf(q.pairs), x)
    {
      if x in removed {
        RemovedNotBelow(q, removed, x);
      } else {
        StuckNeverPeeled(q, removed, x, |q.nodes|);
        BelowCycleIffNeverPeeled(q.nodes, EdgesOf(q.pairs), x);
      }
    }
  }

  lemma AcyclicIffNoneLeft(q: Problem, t: Tables)
    requires q.nodes == Endpoints(q.pairs) && IsResidue(q, t)
    ensures Acyclic(EdgesOf(q.pairs)) <==> t.numParents == map[]
  {
    AcyclicIffNoneBelow(EdgesOf(q.pairs));
    forall x | BelowCycle(EdgesOf(q.pairs), x)
      ensures x in Endpoints(q.pairs)
    {
      BelowIsEndpoint(q.pairs, x);
    }
    if t.numParents != map[] {
      var x :| x in t.numParents;
    }
  }
}
