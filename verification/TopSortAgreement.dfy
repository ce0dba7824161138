/** The flat and the level by level sort agree, whatever order dictionaries are walked in. */
module TopSortAgreement {
  import opened Graphs
  import opened DependencyTables
  import opened TopSort
  import opened TopSortLevels

  ghost function Concat<T>(blocks: seq<seq<T>>): seq<T> {
    if blocks == [] then [] else Concat(blocks[..|blocks| - 1]) + blocks[|blocks| - 1]
  }

  /** What a topsort put in order, whether or not it got through. */
  function Listed(r: Outcome): seq<Node> {
    match r
    case Sorted(answer) => answer
    case CycleError(done, _) => done
  }

  ghost predicate IsLevelwise(answer: seq<Node>, levels: seq<seq<Node>>, blocks: seq<seq<Node>>) {
    && |blocks| == |levels|
    && Concat(blocks) == answer
    && (forall k :: 0 <= k < |levels| ==> multiset(blocks[k]) == multiset(levels[k]))
  }

  lemma {:induction false} DistinctSameElements<T(!new)>(s: seq<T>, t: seq<T>)
    requires Distinct(s) && Distinct(t) && forall x :: x in s <==> x in t
    ensures multiset(s) == multiset(t)
  {
    forall x
      ensures multiset(s)[x] == multiset(t)[x]
    {
      DistinctCounts(s, x);
      DistinctCounts(t, x);
    }
  }

  lemma {:induction false} DistinctCounts<T>(s: seq<T>, x: T)
    requires Distinct(s)
    ensures multiset(s)[x] == if x in s then 1 else 0
  {
    if s != [] {
      var init, last := s[..|s| - 1], s[|s| - 1];
      assert s == init + [last];
      DistinctCounts(init, x);
    }
  }

  /** Where the nodes of depth k begin in a list sorted by depth. */
  lemma {:induction false} CutAt(depths: seq<nat>, k: nat) returns (m: nat)
    requires forall i, j :: 0 <= i <= j < |depths| ==> depths[i] <= depths[j]
    requires forall i :: 0 <= i < |depths| ==> depths[i] <= k
    ensures m <= |depths|
    ensures forall i :: 0 <= i < m ==> depths[i] < k
    ensures forall i :: m <= i < |depths| ==> depths[i] == k
  {
    if depths == [] || depths[|depths| - 1] < k {
      m := |depths|;
    } else {
      m := CutAt(depths[..|depths| - 1], k);
    }
  }

  /** A list sorted by depth is the concatenation of its levels, each permuted. */
  lemma {:induction false} SortedByDepthIsLevelwise(answer: seq<Node>, depths: seq<nat>, levels: seq<seq<Node>>)
    returns (blocks: seq<seq<Node>>)
    requires Distinct(answer) && |depths| == |answer|
    requires forall i, j :: 0 <= i <= j < |depths| ==> depths[i] <= depths[j]
    requires forall i :: 0 <= i < |answer| ==> depths[i] < |levels| && answer[i] in levels[depths[i]]
    requires forall k, x :: 0 <= k < |levels| && x in levels[k] ==>
               exists i :: 0 <= i < |answer| && answer[i] == x && depths[i] == k
    requires forall k :: 0 <= k < |levels| ==> Distinct(levels[k])
    ensures IsLevelwise(answer, levels, blocks)
    decreases |levels|
  {
    assert answer != [] ==> depths[0] < |levels|;
    if levels == [] {
      blocks := [];
    } else {
      var k := |levels| - 1;
      var m := CutAt(depths, k);
      LastLevel(answer, depths, levels, m);
      FrontLevels(answer, depths, levels, m);
      FrontSorted(answer, depths, levels, m);
      hide Distinct, IsLevelwise;
      var blocks0 := SortedByDepthIsLevelwise(answer[..m], depths[..m], levels[..k]);
      blocks := blocks0 + [answer[m..]];
      AppendBlock(answer, levels, m, blocks0);
    }
  }

  lemma AppendBlock(answer: seq<Node>, levels: seq<seq<Node>>, m: nat, blocks: seq<seq<Node>>)
    requires |levels| > 0 && m <= |answer|
    requires IsLevelwise(answer[..m], levels[..|levels| - 1], blocks)
    requires multiset(answer[m..]) == multiset(levels[|levels| - 1])
    ensures IsLevelwise(answer, levels, blocks + [answer[m..]])
  {
    var all := blocks + [answer[m..]];
    assert all[..|all| - 1] == blocks;
    assert answer == answer[..m] + answer[m..];
  }

  lemma LastLevel(answer: seq<Node>, depths: seq<nat>, levels: seq<seq<Node>>, m: nat)
    requires |levels| > 0 && m <= |answer| == |depths| && Distinct(answer)
    requires forall i :: 0 <= i < m ==> depths[i] < |levels| - 1
    requires forall i :: m <= i < |depths| ==> depths[i] == |levels| - 1
    requires forall i :: 0 <= i < |answer| ==> depths[i] < |levels| && answer[i] in levels[depths[i]]
    requires forall k, x :: 0 <= k < |levels| && x in levels[k] ==>
               exists i :: 0 <= i < |answer| && answer[i] == x && depths[i] == k
    requires Distinct(levels[|levels| - 1])
    ensures multiset(answer[m..]) == multiset(levels[|levels| - 1])
  {
    var k, back := |levels| - 1, answer[m..];
    forall x | x in back
      ensures x in levels[k]
    {
      var i :| 0 <= i < |back| && back[i] == x;
      assert answer[m + i] == x && depths[m + i] == k;
    }
    forall x | x in levels[k]
      ensures x in back
    {
      var i :| 0 <= i < |answer| && answer[i] == x && depths[i] == k;
      assert back[i - m] == x;
    }
    DistinctSameElements(back, levels[k]);
  }

  lemma FrontSorted(answer: seq<Node>, depths: seq<nat>, levels: seq<seq<Node>>, m: nat)
    requires |levels| > 0 && m <= |answer| == |depths| && Distinct(answer)
    requires forall i, j :: 0 <= i <= j < |depths| ==> depths[i] <= depths[j]
    requires forall i :: 0 <= i < |answer| ==> depths[i] < |levels| && answer[i] in levels[depths[i]]
    requires forall i :: 0 <= i < m ==> depths[i] < |levels| - 1
    requires forall k :: 0 <= k < |levels| ==> Distinct(levels[k])
    ensures var front, lower, fewer := answer[..m], depths[..m], levels[..|levels| - 1];
      && Distinct(front)
      && (forall i, j :: 0 <= i <= j < |lower| ==> lower[i] <= lower[j])
      && (forall i :: 0 <= i < |front| ==> lower[i] < |fewer| && front[i] in fewer[lower[i]])
      && (forall k :: 0 <= k < |fewer| ==> Distinct(fewer[k]))
  {
  }

  lemma FrontLevels(answer: seq<Node>, depths: seq<nat>, levels: seq<seq<Node>>, m: nat)
    requires |levels| > 0 && m <= |answer| == |depths|
    requires forall i :: 0 <= i < m ==> depths[i] < |levels| - 1
    requires forall i :: m <= i < |depths| ==> depths[i] == |levels| - 1
    requires forall k, x :: 0 <= k < |levels| && x in levels[k] ==>
               exists i :: 0 <= i < |answer| && answer[i] == x && depths[i] == k
    ensures var front, fewer := answer[..m], levels[..|levels| - 1];
      forall k, x :: 0 <= k < |fewer| && x in fewer[k] ==>
        exists i :: 0 <= i < |front| && front[i] == x && depths[..m][i] == k
  {
    var front, fewer := answer[..m], levels[..|levels| - 1];
    forall k, x | 0 <= k < |fewer| && x in fewer[k]
      ensures exists i :: 0 <= i < |front| && front[i] == x && depths[..m][i] == k
    {
      assert x in levels[k];
      var i :| 0 <= i < |answer| && answer[i] == x && depths[i] == k;
      assert front[i] == x && depths[..m][i] == k;
    }
  }

  lemma OrderIsLevelwise(q: Problem, answer: seq<Node>, levels: seq<seq<Node>>, end: LevelsEnd)
    returns (blocks: seq<seq<Node>>)
    requires Within(EdgesOf(q.pairs), q.nodes) && IsLevelsOf(q, levels, end)
    requires Distinct(answer) && DepthsRise(EdgesOf(q.pairs), answer)
    requires forall x :: x in answer <==> x in q.nodes && !BelowCycle(EdgesOf(q.pairs), x)
    ensures IsLevelwise(answer, levels, blocks)
  {
    hide BelowCycle, HasDepth, IsResidue, EdgesOf, Within;
    var g := EdgesOf(q.pairs);
    var depths :| DepthsAre(g, answer, depths);
    forall i | 0 <= i < |answer|
      ensures depths[i] < |levels| && answer[i] in levels[depths[i]]
    {
      assert answer[i] in answer;
      var k :| 0 <= k < |levels| && answer[i] in levels[k];
      DepthIsUnique(g, answer[i], k, depths[i]);
    }
    forall k, x | 0 <= k < |levels| && x in levels[k]
      ensures exists i :: 0 <= i < |answer| && answer[i] == x && depths[i] == k
    {
      DepthMeansNotBelow(q.nodes, g, x, k);
      var i :| 0 <= i < |answer| && answer[i] == x;
      DepthIsUnique(g, x, k, depths[i]);
    }
    blocks := SortedByDepthIsLevelwise(answer, depths, levels);
  }

  lemma ResidueIsUnique(q: Problem, t1: Tables, t2: Tables)
    requires IsResidue(q, t1) && IsResidue(q, t2)
    ensures t1 == t2
  {
    hide BelowCycle, EdgesOf, CountIn;
    assert t1.numParents.Keys == t2.numParents.Keys;
  }

  lemma SortedMeansNoneBelow(q: Problem, r: Outcome)
    requires Within(EdgesOf(q.pairs), q.nodes) && IsTopsortOf(q, r)
    ensures forall x :: x in Listed(r) <==> x in q.nodes && !BelowCycle(EdgesOf(q.pairs), x)
    ensures Distinct(Listed(r)) && DepthsRise(EdgesOf(q.pairs), Listed(r))
  {
    hide BelowCycle, HasDepth, Within, EdgesOf;
    var answer := Listed(r);
    var depths :| DepthsAre(EdgesOf(q.pairs), answer, depths);
    forall x | x in answer
      ensures !BelowCycle(EdgesOf(q.pairs), x)
    {
      var i :| 0 <= i < |answer| && answer[i] == x;
      assert x in q.nodes;
      DepthMeansNotBelow(q.nodes, EdgesOf(q.pairs), x, depths[i]);
    }
  }

  lemma FailuresAgree(q: Problem, r: Outcome, levels: seq<seq<Node>>, end: LevelsEnd)
    requires Within(EdgesOf(q.pairs), q.nodes) && IsTopsortOf(q, r) && IsLevelsOf(q, levels, end)
    ensures r.Sorted? <==> end.StopIteration?
    ensures r.CycleError? ==> end == LevelsCycleError(r.left)
  {
    SortedMeansNoneBelow(q, r);
    hide BelowCycle, AreLevels, IsDependencyOrder, EdgesOf, Within, CountIn;
    if r.CycleError? {
      var x :| x in r.left.numParents;
    }
    if end.LevelsCycleError? {
      var x :| x in end.left.numParents;
      assert x !in Listed(r);
      SomethingLeft(q, r, x);
      ResidueIsUnique(q, r.left, end.left);
    }
  }

  lemma SomethingLeft(q: Problem, r: Outcome, x: Node)
    requires IsTopsortOf(q, r) && x in q.nodes && x !in Listed(r)
    ensures r.CycleError?
  {
  }

  /** The two forms succeed together, list the same levels, and on failure leave the same
      dictionaries behind. */
  lemma FormsAgree(q: Problem, r: Outcome, levels: seq<seq<Node>>, end: LevelsEnd)
    requires Within(EdgesOf(q.pairs), q.nodes) && IsTopsortOf(q, r) && IsLevelsOf(q, levels, end)
    ensures r.Sorted? <==> end.StopIteration?
    ensures exists blocks :: IsLevelwise(Listed(r), levels, blocks)
    ensures r.CycleError? ==> end == LevelsCycleError(r.left)
  {
    hide IsTopsortOf, IsLevelsOf;
    FailuresAgree(q, r, levels, end);
    SortedMeansNoneBelow(q, r);
    var blocks := OrderIsLevelwise(q, Listed(r), levels, end);
  }

  /** The child lists built from the pairs are determined by them, so both forms solve the
      same problem. */
  lemma SameProblem(q1: Problem, q2: Problem)
    requires q1.pairs == q2.pairs && q1.nodes == q2.nodes
    requires ChildListsOf(q1.pairs, q1.children0) && ChildListsOf(q2.pairs, q2.children0)
    ensures q1 == q2
  {
    var c1, c2 := q1.children0, q2.children0;
    forall p
      ensures p in c1 <==> p in c2
      ensures p in c1 ==> c1[p] == c2[p]
    {
      assert Kids(c1, p) == Kids(c2, p);
    }
    assert c1 == c2;
  }

  /** So whatever the two sorts return for the same pairs, their answers agree. */
  lemma SortsOfPairsAgree(pairs: Pairs, r: Outcome, q1: Problem, levels: seq<seq<Node>>, end: LevelsEnd, q2: Problem)
    requires q1.pairs == pairs && q1.nodes == Endpoints(pairs) && ChildListsOf(pairs, q1.children0)
    requires IsTopsortOf(q1, r)
    requires q2.pairs == pairs && q2.nodes == Endpoints(pairs) && ChildListsOf(pairs, q2.children0)
    requires IsLevelsOf(q2, levels, end)
    ensures r.Sorted? <==> end.StopIteration?
    ensures exists blocks :: IsLevelwise(Listed(r), levels, blocks)
    ensures r.CycleError? ==> end == LevelsCycleError(r.left)
  {
    hide *;
    SameProblem(q1, q2);
    EdgesWithinEndpoints(pairs);
    FormsAgree(q1, r, levels, end);
  }
}
