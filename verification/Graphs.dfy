/** Directed graphs as sets of edges: walks, cycles, reachability below a cycle, and
    the layering of a graph by longest walk that dependency sorting is measured against. */
module Graphs {

  /** Anything that can be a dictionary key. */
  type Node(==, !new)

  /** (a, b) in g: there is an edge from the parent a to the child b. */
  type Graph = set<(Node, Node)>

  /** What a dictionary of lists holds for a parent: no list, no children. */
  function Kids(children: map<Node, seq<Node>>, p: Node): seq<Node> {
    if p in children then children[p] else []
  }

  ghost predicate Distinct<T>(s: seq<T>) {
    forall i, j :: 0 <= i < j < |s| ==> s[i] != s[j]
  }

  ghost function Elements<T(!new)>(s: seq<T>): (r: set<T>)
    ensures forall x :: x in r <==> x in s
  {
    set x | x in s
  }

  ghost predicate IsWalk(g: Graph, w: seq<Node>) {
    |w| > 0 && forall i {:trigger w[i]} :: 0 <= i < |w| - 1 ==> (w[i], w[i + 1]) in g
  }

  ghost predicate IsWalkTo(g: Graph, w: seq<Node>, x: Node) {
    IsWalk(g, w) && w[|w| - 1] == x
  }

  /** A closed walk; the last node is a parent of the first. */
  ghost predicate IsCycle(g: Graph, c: seq<Node>) {
    IsWalk(g, c) && (c[|c| - 1], c[0]) in g
  }

  ghost predicate IsSimpleCycle(g: Graph, c: seq<Node>) {
    IsCycle(g, c) && Distinct(c)
  }

  ghost predicate Acyclic(g: Graph) {
    forall c :: !IsCycle(g, c)
  }

  /** x lies on a cycle or can be reached from one. */
  ghost predicate BelowCycle(g: Graph, x: Node) {
    exists c, w :: IsCycle(g, c) && IsWalkTo(g, w, x) && w[0] == c[0]
  }

  ghost predicate Within(g: Graph, nodes: set<Node>) {
    forall e :: e in g ==> e.0 in nodes && e.1 in nodes
  }

  /** x's longest incoming walk has d edges: the depth of x in the dependency order. */
  ghost predicate HasDepth(g: Graph, x: Node, d: nat) {
    && (exists w :: IsWalkTo(g, w, x) && |w| == d + 1)
    && (forall w :: IsWalkTo(g, w, x) ==> |w| <= d + 1)
  }

  /** The nodes all of whose incoming walks have at most k nodes, computed by peeling
      parentless nodes off the graph k times. */
  ghost function Peeled(nodes: set<Node>, g: Graph, k: nat): (r: set<Node>)
    ensures r <= nodes
  {
    if k == 0 then {} else set x | x in nodes && ParentsIn(g, x, Peeled(nodes, g, k - 1))
  }

  ghost predicate ParentsIn(g: Graph, x: Node, s: set<Node>) {
    forall p :: (p, x) in g ==> p in s
  }

  ghost function Level(nodes: set<Node>, g: Graph, k: nat): set<Node> {
    Peeled(nodes, g, k + 1) - Peeled(nodes, g, k)
  }

  // ---------- distinct lists ----------

  lemma DistinctConcat<T(!new)>(a: seq<T>, b: seq<T>)
    requires Distinct(a) && Distinct(b) && forall x :: x in a ==> x !in b
    ensures Distinct(a + b)
  {
    forall j, k | 0 <= j < k < |a + b|
      ensures (a + b)[j] != (a + b)[k]
    {
      if j < |a| <= k {
        assert a[j] in a && b[k - |a|] in b;
      }
    }
  }


  lemma {:induction false} DistinctFits<T>(s: seq<T>, universe: set<T>)
    requires Distinct(s) && forall x :: x in s ==> x in universe
    ensures |s| <= |universe|
  {
    if s != [] {
      var x := s[|s| - 1];
      DistinctFits(s[..|s| - 1], universe - {x});
    }
  }

  lemma WalkStaysWithin(nodes: set<Node>, g: Graph, w: seq<Node>)
    requires Within(g, nodes) && IsWalk(g, w) && (w[0] in nodes || w[|w| - 1] in nodes)
    ensures forall x :: x in w ==> x in nodes
  {
    forall i | 0 <= i < |w|
      ensures w[i] in nodes
    {
      if i + 1 < |w| {
        assert (w[i], w[i + 1]) in g;
      } else if i > 0 {
        assert (w[i - 1], w[i]) in g;
      }
    }
  }

  // ---------- cycles ----------

  /** Cutting a closed walk at a repeated node leaves a closed walk. */
  lemma LoopIsCycle(g: Graph, w: seq<Node>, i: nat, j: nat)
    requires IsWalk(g, w) && i < j < |w| && w[i] == w[j]
    ensures IsCycle(g, w[i..j])
  {
    var c := w[i..j];
    forall k | 0 <= k < |c| - 1
      ensures (c[k], c[k + 1]) in g
    {
      assert c[k] == w[i + k] && c[k + 1] == w[i + k + 1];
    }
    assert c[|c| - 1] == w[j - 1] && (w[j - 1], w[j - 1 + 1]) in g;
  }

  /** Every cycle contains a simple one. */
  lemma {:induction false} SimpleCycleInside(g: Graph, c: seq<Node>) returns (s: seq<Node>)
    requires IsCycle(g, c)
    ensures IsSimpleCycle(g, s) && forall x :: x in s ==> x in c
    decreases |c|
  {
    if Distinct(c) {
      s := c;
    } else {
      var i, j :| 0 <= i < j < |c| && c[i] == c[j];
      LoopIsCycle(g, c, i, j);
      s := SimpleCycleInside(g, c[i..j]);
    }
  }

  lemma AcyclicIffNoSimpleCycle(g: Graph)
    ensures Acyclic(g) <==> forall c :: !IsSimpleCycle(g, c)
  {
    if !Acyclic(g) {
      var c :| IsCycle(g, c);
      var s := SimpleCycleInside(g, c);
    }
  }

  // ---------- peeling is layering by longest walk ----------

  lemma {:induction false} PeeledGrows(nodes: set<Node>, g: Graph, j: nat, k: nat)
    requires j <= k
    ensures Peeled(nodes, g, j) <= Peeled(nodes, g, k)
    decreases k
  {
    if 0 < j < k {
      PeeledGrows(nodes, g, j - 1, k - 1);
    }
  }

  /** Peeling k times removes exactly the nodes whose incoming walks have at most k nodes. */
  lemma {:induction false} PeeledIffWalksShort(nodes: set<Node>, g: Graph, k: nat, x: Node)
    requires Within(g, nodes) && x in nodes
    ensures x in Peeled(nodes, g, k) <==> forall w :: IsWalkTo(g, w, x) ==> |w| <= k
    decreases k
  {
    if k == 0 {
      assert IsWalkTo(g, [x], x);
    } else {
      if x in Peeled(nodes, g, k) {
        forall w | IsWalkTo(g, w, x)
          ensures |w| <= k
        {
          if |w| > 1 {
            var p := w[|w| - 2];
            assert (p, w[|w| - 2 + 1]) in g;
            PeeledIffWalksShort(nodes, g, k - 1, p);
            assert IsWalkTo(g, w[..|w| - 1], p);
          }
        }
      } else {
        var p :| (p, x) in g && p !in Peeled(nodes, g, k - 1);
        PeeledIffWalksShort(nodes, g, k - 1, p);
        var w :| IsWalkTo(g, w, p) && |w| > k - 1;
        assert IsWalkTo(g, w + [x], x);
      }
    }
  }

  /** The k-th level is the set of nodes of depth k. */
  lemma LevelIffDepth(nodes: set<Node>, g: Graph, k: nat, x: Node)
    requires Within(g, nodes) && x in nodes
    ensures x in Level(nodes, g, k) <==> HasDepth(g, x, k)
  {
    PeeledIffWalksShort(nodes, g, k, x);
    PeeledIffWalksShort(nodes, g, k + 1, x);
  }

  lemma {:induction false} CycleNeverPeeled(nodes: set<Node>, g: Graph, c: seq<Node>, i: nat, k: nat)
    requires IsCycle(g, c) && i < |c|
    ensures c[i] !in Peeled(nodes, g, k)
    decreases k
  {
    if k > 0 {
      var before := if i == 0 then |c| - 1 else i - 1;
      assert (c[before], c[i]) in g by {
        if i > 0 { assert (c[before], c[before + 1]) in g; }
      }
      CycleNeverPeeled(nodes, g, c, before, k - 1);
    }
  }

  lemma {:induction false} WalkFromCycleNeverPeeled(nodes: set<Node>, g: Graph, c: seq<Node>, w: seq<Node>, k: nat)
    requires IsCycle(g, c) && IsWalk(g, w) && w[0] == c[0]
    ensures w[|w| - 1] !in Peeled(nodes, g, k)
    decreases |w|
  {
    if |w| == 1 {
      CycleNeverPeeled(nodes, g, c, 0, k);
    } else if k > 0 {
      var p := w[|w| - 2];
      assert (p, w[|w| - 2 + 1]) in g;
      WalkFromCycleNeverPeeled(nodes, g, c, w[..|w| - 1], k - 1);
    }
  }

  /** A walk longer than the graph has nodes runs through a cycle. */
  lemma LongWalkHasCycle(nodes: set<Node>, g: Graph, w: seq<Node>)
    requires Within(g, nodes) && IsWalk(g, w) && w[|w| - 1] in nodes && |w| > |nodes|
    ensures BelowCycle(g, w[|w| - 1])
  {
    WalkStaysWithin(nodes, g, w);
    if Distinct(w) {
      DistinctFits(w, nodes);
    }
    var i, j :| 0 <= i < j < |w| && w[i] == w[j];
    LoopIsCycle(g, w, i, j);
    assert IsWalkTo(g, w[i..], w[|w| - 1]);
    assert w[i..j][0] == w[i..][0];
  }

  lemma BelowCycleNeverPeeled(nodes: set<Node>, g: Graph, x: Node, k: nat)
    requires BelowCycle(g, x)
    ensures x !in Peeled(nodes, g, k)
  {
    var c, w :| IsCycle(g, c) && IsWalkTo(g, w, x) && w[0] == c[0];
    WalkFromCycleNeverPeeled(nodes, g, c, w, k);
  }

  /** A node resists |nodes| rounds of peeling exactly when it lies on or below a cycle. */
  lemma BelowCycleIffNeverPeeled(nodes: set<Node>, g: Graph, x: Node)
    requires Within(g, nodes) && x in nodes
    ensures BelowCycle(g, x) <==> x !in Peeled(nodes, g, |nodes|)
    ensures BelowCycle(g, x) ==> forall k: nat :: x !in Peeled(nodes, g, k)
  {
    hide BelowCycle;
    forall k: nat | BelowCycle(g, x)
      ensures x !in Peeled(nodes, g, k)
    {
      BelowCycleNeverPeeled(nodes, g, x, k);
    }
    if x !in Peeled(nodes, g, |nodes|) {
      PeeledIffWalksShort(nodes, g, |nodes|, x);
      var w :| IsWalkTo(g, w, x) && |w| > |nodes|;
      LongWalkHasCycle(nodes, g, w);
    }
  }

  /** A node has at most one depth, and none when it lies on or below a cycle. */
  lemma DepthIsUnique(g: Graph, x: Node, d: nat, e: nat)
    requires HasDepth(g, x, d) && HasDepth(g, x, e)
    ensures d == e
  {
  }

  lemma DepthMeansNotBelow(nodes: set<Node>, g: Graph, x: Node, d: nat)
    requires Within(g, nodes) && x in nodes && HasDepth(g, x, d)
    ensures !BelowCycle(g, x)
  {
    LevelIffDepth(nodes, g, d, x);
    BelowCycleIffNeverPeeled(nodes, g, x);
  }

  /** On or below a cycle there is a whole simple cycle of nodes on or below a cycle. */
  lemma CycleAmongBelow(g: Graph, x: Node) returns (c: seq<Node>)
    requires BelowCycle(g, x)
    ensures IsSimpleCycle(g, c) && forall y :: y in c ==> BelowCycle(g, y)
  {
    var d, w :| IsCycle(g, d) && IsWalkTo(g, w, x) && w[0] == d[0];
    c := SimpleCycleInside(g, d);
    forall y | y in c
      ensures BelowCycle(g, y)
    {
      var i :| 0 <= i < |c| && c[i] == y;
      assert IsWalkTo(g, c[..i + 1], y) && c[..i + 1][0] == c[0];
    }
  }

  lemma AcyclicIffNoneBelow(g: Graph)
    ensures Acyclic(g) <==> forall x :: !BelowCycle(g, x)
  {
    if !Acyclic(g) {
      var c :| IsCycle(g, c);
      assert IsWalkTo(g, [c[0]], c[0]);
      assert BelowCycle(g, c[0]);
    }
  }
}
