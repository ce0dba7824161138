/** Enumeration of all simple cycles of a graph with an explicit stack of paths. */
module FindCycles {
  import opened Graphs
  import opened Rotations
  import opened Wrappers

  /** parent -> collection of children; a child need not be a key. */
  type Children = map<Node, seq<Node>>

  function EdgesOf(pc: Children): Graph {
    set a, b | a in pc && b in pc[a] :: (a, b)
  }

  ghost function NodesOf(pc: Children): set<Node> {
    pc.Keys + set a, b | a in pc && b in pc[a] :: b
  }

  lemma EdgeIff(pc: Children, a: Node, b: Node)
    ensures (a, b) in EdgesOf(pc) <==> a in pc && b in pc[a]
    ensures (a, b) in EdgesOf(pc) ==> a in NodesOf(pc) && b in NodesOf(pc)
  {
  }

  // ---------- what has been found ----------

  /** c has been yielded, up to rotation. */
  ghost predicate Recorded(cycles: seq<seq<Node>>, c: seq<Node>) {
    exists i :: 0 <= i < |cycles| && IsRotation(cycles[i], c)
  }

  /** Every yield is a simple cycle and no two are rotations of each other. */
  ghost predicate SoundYields(g: Graph, cycles: seq<seq<Node>>) {
    && (forall i :: 0 <= i < |cycles| ==> IsSimpleCycle(g, cycles[i]))
    && (forall i, j :: 0 <= i < j < |cycles| ==> !IsRotation(cycles[i], cycles[j]))
  }

  /** The yields are the simple cycles of g, each once up to rotation. */
  ghost predicate AreCyclesOf(g: Graph, cycles: seq<seq<Node>>) {
    && SoundYields(g, cycles)
    && (forall c :: IsSimpleCycle(g, c) ==> Recorded(cycles, c))
  }

  ghost predicate AllRecordedThrough(g: Graph, cycles: seq<seq<Node>>, v: Node) {
    forall c :: IsSimpleCycle(g, c) && v in c ==> Recorded(cycles, c)
  }

  /** A path the search may hold: a simple walk from `start`. */
  ghost predicate IsPathFrom(g: Graph, start: Node, p: seq<Node>) {
    IsWalk(g, p) && Distinct(p) && p[0] == start
  }

  function IndexOf(path: seq<Node>, x: Node): (i: nat)
    requires x in path
    ensures i < |path| && path[i] == x && x !in path[..i]
  {
    if path[0] == x then 0 else
      assert path == [path[0]] + path[1..];
      var i := IndexOf(path[1..], x);
      assert path[..i + 1] == [path[0]] + path[1..][..i];
      i + 1
  }

  /** What expanding the path p must have left behind for its child x. */
  ghost predicate ChildHandled(cycles: seq<seq<Node>>, seen: set<seq<Node>>, p: seq<Node>, x: Node) {
    if x in p then Recorded(cycles, p[IndexOf(p, x)..]) else p + [x] in seen
  }

  ghost predicate Expanded(pc: Children, cycles: seq<seq<Node>>, seen: set<seq<Node>>, p: seq<Node>)
    requires |p| > 0
  {
    var last := p[|p| - 1];
    forall x :: (last, x) in EdgesOf(pc) ==> ChildHandled(cycles, seen, p, x)
  }

  // ---------- recording ----------

  lemma RecordedGrows(cycles: seq<seq<Node>>, more: seq<seq<Node>>, c: seq<Node>)
    requires cycles <= more && Recorded(cycles, c)
    ensures Recorded(more, c)
  {
    var i :| 0 <= i < |cycles| && IsRotation(cycles[i], c);
    assert IsRotation(more[i], c);
  }

  lemma RecordedUpToRotation(cycles: seq<seq<Node>>, c: seq<Node>, d: seq<Node>)
    requires Recorded(cycles, c) && IsRotation(c, d)
    ensures Recorded(cycles, d)
  {
    var i :| 0 <= i < |cycles| && IsRotation(cycles[i], c);
    RotationTransitive(cycles[i], c, d);
  }

  /** Closing a path at one of its own nodes gives a simple cycle. */
  lemma BackEdgeCycle(g: Graph, start: Node, path: seq<Node>, child: Node)
    requires IsPathFrom(g, start, path) && child in path && (path[|path| - 1], child) in g
    ensures IsSimpleCycle(g, path[IndexOf(path, child)..])
  {
    var c := path[IndexOf(path, child)..];
    forall k | 0 <= k < |c| - 1
      ensures (c[k], c[k + 1]) in g
    {
      var i := IndexOf(path, child) + k;
      assert (path[i], path[i + 1]) in g;
    }
  }

  /** Add a cycle unless a rotation of it is already there. */
  method Record(ghost g: Graph, cycles0: seq<seq<Node>>, cycle: seq<Node>) returns (cycles: seq<seq<Node>>)
    requires SoundYields(g, cycles0) && IsSimpleCycle(g, cycle)
    ensures SoundYields(g, cycles) && cycles0 <= cycles && Recorded(cycles, cycle)
  {
    cycles := cycles0;
    var isDup := false;
    for i := 0 to |cycles|
      invariant forall j :: 0 <= j < i ==> !IsRotation(cycles[j], cycle)
    {
      var otherCycle := cycles[i];
      var rotated := IsRotated(otherCycle, cycle);
      if rotated == Some(true) {
        isDup := true;
        return;
      }
    }
    if !isDup {
      cycles := cycles + [cycle];
      RotationReflexive(cycle);
      assert IsRotation(cycles[|cycles| - 1], cycle);
    }
  }

  // ---------- the search covers everything reachable ----------

  /** The first part of a walk into c, shortened to a simple path that meets c only at its end. */
  lemma {:induction false} SimpleApproach(g: Graph, w: seq<Node>, c: seq<Node>) returns (p: seq<Node>)
    requires IsWalk(g, w) && w[|w| - 1] in c
    ensures |p| > 0 && IsPathFrom(g, w[0], p) && p[|p| - 1] in c
    ensures forall i :: 0 <= i < |p| - 1 ==> p[i] !in c
    decreases |w|
  {
    if i :| 0 <= i < |w| - 1 && w[i] in c {
      p := SimpleApproach(g, w[..i + 1], c);
    } else if !Distinct(w) {
      var i, j :| 0 <= i < j < |w| && w[i] == w[j];
      CutOut(g, w, i, j);
      p := SimpleApproach(g, w[..i + 1] + w[j + 1..], c);
    } else {
      p := w;
    }
  }

  /** Leaving out the closed stretch between two visits of a node keeps a walk a walk. */
  lemma CutOut(g: Graph, w: seq<Node>, i: nat, j: nat)
    requires IsWalk(g, w) && i < j < |w| && w[i] == w[j]
    ensures var v := w[..i + 1] + w[j + 1..]; IsWalk(g, v) && v[0] == w[0] && v[|v| - 1] == w[|w| - 1]
  {
    hide Distinct;
    var v := w[..i + 1] + w[j + 1..];
    forall k | 0 <= k < |v| - 1
      ensures (v[k], v[k + 1]) in g
    {
      var at := if k <= i then k else k + j - i;
      assert (w[at], w[at + 1]) in g;
      assert k == i ==> (w[j], w[j + 1]) in g;
    }
  }

  lemma RotatedIsCycle(g: Graph, c: seq<Node>, m: nat)
    requires IsCycle(g, c) && m < |c|
    ensures IsCycle(g, Rotated(c, m))
  {
    var d := Rotated(c, m);
    forall k | 0 <= k < |d|
      ensures (d[k], d[if k + 1 == |d| then 0 else k + 1]) in g
    {
      var at := if k + m < |c| then k + m else k + m - |c|;
      assert d[k] == c[at];
      if at + 1 < |c| {
        assert (c[at], c[at + 1]) in g;
      }
    }
  }

  /** A simple cycle may be listed from any of its nodes. */
  lemma RotateCycle(g: Graph, c: seq<Node>, m: nat)
    requires IsSimpleCycle(g, c) && m < |c|
    ensures IsSimpleCycle(g, Rotated(c, m)) && Rotated(c, m)[0] == c[m]
    ensures forall x :: x in Rotated(c, m) ==> x in c
    ensures IsRotation(Rotated(c, m), c)
  {
    hide IsCycle;
    RotatedIsCycle(g, c, m);
    assert IsRotation(c, Rotated(c, m));
    RotationSymmetric(c, Rotated(c, m));
    hide IsRotation;
  }

  /** An approach followed by a turn round the cycle is again a simple path. */
  lemma JoinAtCycle(g: Graph, start: Node, p: seq<Node>, d: seq<Node>)
    requires |p| > 0 && |d| > 0 && IsPathFrom(g, start, p) && IsSimpleCycle(g, d) && p[|p| - 1] == d[0]
    requires forall i :: 0 <= i < |p| - 1 ==> p[i] !in d
    ensures IsPathFrom(g, start, p + d[1..])
  {
    var q := p + d[1..];
    forall k | 0 <= k < |q| - 1
      ensures (q[k], q[k + 1]) in g
    {
      if k + 1 < |p| {
        assert (p[k], p[k + 1]) in g;
      } else {
        var at := k + 1 - |p|;
        assert q[k] == d[at] && q[k + 1] == d[at + 1];
        assert (d[at], d[at + 1]) in g;
      }
    }
    forall i, j | 0 <= i < j < |q|
      ensures q[i] != q[j]
    {
      if j >= |p| {
        assert q[j] == d[j + 1 - |p|] && q[j] in d;
        if i >= |p| - 1 {
          assert q[i] == d[i + 1 - |p|];
        }
      }
    }
  }

  /** The search from start is over: everything seen has been expanded. */
  ghost predicate Exhausted(pc: Children, cycles: seq<seq<Node>>, start: Node, seen: set<seq<Node>>) {
    && [start] in seen
    && forall p :: p in seen ==> |p| > 0 && Expanded(pc, cycles, seen, p)
  }

  lemma {:induction false} EveryPathSeen(pc: Children, cycles: seq<seq<Node>>, start: Node,
                                         seen: set<seq<Node>>, p: seq<Node>)
    requires Exhausted(pc, cycles, start, seen) && IsPathFrom(EdgesOf(pc), start, p)
    ensures p in seen
    decreases |p|
  {
    if |p| == 1 {
      assert p == [start];
    } else {
      var front, x := p[..|p| - 1], p[|p| - 1];
      EveryPathSeen(pc, cycles, start, seen, front);
      assert p == front + [x];
      assert (p[|p| - 2], p[|p| - 2 + 1]) in EdgesOf(pc);
      assert ChildHandled(cycles, seen, front, x);
    }
  }

  /** A path that runs into d and once round it has had its closing edge recorded. */
  lemma TurnRecorded(pc: Children, cycles: seq<seq<Node>>, start: Node, seen: set<seq<Node>>,
                     p: seq<Node>, d: seq<Node>)
    requires Exhausted(pc, cycles, start, seen)
    requires |p| > 0 && IsSimpleCycle(EdgesOf(pc), d) && p[|p| - 1] == d[0]
    requires IsPathFrom(EdgesOf(pc), start, p + d[1..])
    ensures Recorded(cycles, d)
  {
    var q := p + d[1..];
    EveryPathSeen(pc, cycles, start, seen, q);
    assert Expanded(pc, cycles, seen, q);
    hide IsWalk, EdgesOf, Exhausted, Recorded;
    assert q[|q| - 1] == d[|d| - 1];
    assert ChildHandled(cycles, seen, q, d[0]);
    assert q[|p| - 1] == d[0];
    var i := IndexOf(q, d[0]);
    assert i == |p| - 1;
    assert q[i..] == d;
  }

  /** Every simple cycle that can be reached from an exhausted start has been yielded. */
  lemma ReachableCycleRecorded(pc: Children, cycles: seq<seq<Node>>, start: Node, seen: set<seq<Node>>,
                               w: seq<Node>, c: seq<Node>)
    requires Exhausted(pc, cycles, start, seen)
    requires IsWalk(EdgesOf(pc), w) && w[0] == start && IsSimpleCycle(EdgesOf(pc), c) && w[|w| - 1] in c
    ensures Recorded(cycles, c)
  {
    var g := EdgesOf(pc);
    var p := SimpleApproach(g, w, c);
    hide *;
    var m :| 0 <= m < |c| && c[m] == p[|p| - 1];
    var d := Rotated(c, m);
    RotateCycle(g, c, m);
    JoinAtCycle(g, start, p, d);
    TurnRecorded(pc, cycles, start, seen, p, d);
    RecordedUpToRotation(cycles, d, c);
  }

  // ---------- the stack ----------

  /** Paths seen so far are simple walks from start, and each is still on the stack, or is
      the one being expanded, or has been expanded. */
  ghost predicate StackInv(pc: Children, start: Node, cycles: seq<seq<Node>>, seen: set<seq<Node>>,
                           paths: seq<seq<Node>>, current: seq<Node>)
  {
    && [start] in seen
    && (forall p :: p in paths ==> p in seen)
    && (forall p :: p in seen ==> IsPathFrom(EdgesOf(pc), start, p))
    && (forall p :: p in seen ==> p in paths || p == current || Expanded(pc, cycles, seen, p))
  }

  /** Nodes marked during this search end a path that was seen. */
  ghost predicate MarksSeen(visited0: set<Node>, visited: set<Node>, seen: set<seq<Node>>) {
    forall v :: v in visited && v !in visited0 ==> exists p :: p in seen && |p| > 0 && p[|p| - 1] == v
  }

  lemma HandledGrows(cycles: seq<seq<Node>>, more: seq<seq<Node>>, seen: set<seq<Node>>, seen': set<seq<Node>>,
                     p: seq<Node>, x: Node)
    requires cycles <= more && seen <= seen' && ChildHandled(cycles, seen, p, x)
    ensures ChildHandled(more, seen', p, x)
  {
    if x in p {
      RecordedGrows(cycles, more, p[IndexOf(p, x)..]);
    }
  }

  lemma ExpandedGrows(pc: Children, cycles: seq<seq<Node>>, more: seq<seq<Node>>,
                      seen: set<seq<Node>>, seen': set<seq<Node>>, p: seq<Node>)
    requires cycles <= more && seen <= seen' && |p| > 0 && Expanded(pc, cycles, seen, p)
    ensures Expanded(pc, more, seen', p)
  {
    forall x | (p[|p| - 1], x) in EdgesOf(pc)
      ensures ChildHandled(more, seen', p, x)
    {
      HandledGrows(cycles, more, seen, seen', p, x);
    }
  }

  lemma StackGrows(pc: Children, start: Node, cycles: seq<seq<Node>>, more: seq<seq<Node>>,
                   seen: set<seq<Node>>, paths: seq<seq<Node>>, current: seq<Node>, pushed: seq<seq<Node>>)
    requires StackInv(pc, start, cycles, seen, paths, current) && cycles <= more
    requires forall p :: p in pushed ==> IsPathFrom(EdgesOf(pc), start, p)
    ensures StackInv(pc, start, more, seen + Elements(pushed), paths + pushed, current)
  {
    hide Expanded, EdgesOf;
    var seen' := seen + Elements(pushed);
    forall p | p in seen'
      ensures p in paths + pushed || p == current || Expanded(pc, more, seen', p)
    {
      if p in seen && p !in paths && p != current {
        ExpandedGrows(pc, cycles, more, seen, seen', p);
      }
    }
  }

  /** The stack entry on top becomes the one being expanded. */
  lemma StackPop(pc: Children, start: Node, cycles: seq<seq<Node>>, seen: set<seq<Node>>, paths: seq<seq<Node>>)
    requires |paths| > 0 && StackInv(pc, start, cycles, seen, paths, [])
    ensures var top := paths[|paths| - 1];
      StackInv(pc, start, cycles, seen, paths[..|paths| - 1], top) && IsPathFrom(EdgesOf(pc), start, top) && top in seen
  {
    hide Expanded, EdgesOf;
    var rest, top := paths[..|paths| - 1], paths[|paths| - 1];
    assert paths == rest + [top];
  }

  lemma StackDone(pc: Children, start: Node, cycles: seq<seq<Node>>, seen: set<seq<Node>>, paths: seq<seq<Node>>,
                  current: seq<Node>)
    requires StackInv(pc, start, cycles, seen, paths, current)
    requires |current| > 0 && Expanded(pc, cycles, seen, current)
    ensures StackInv(pc, start, cycles, seen, paths, [])
  {
  }

  // ---------- termination ----------

  ghost function Pow(b: nat, e: nat): (r: nat)
    ensures b > 0 ==> r > 0
  {
    if e == 0 then 1 else b * Pow(b, e - 1)
  }

  /** How much work a path of the given length can still cause: at most d children each
      step, and no simple path is longer than n. */
  ghost function PathWeight(d: nat, n: nat, length: nat): nat {
    if length > n then 0 else Pow(d + 1, n - length)
  }

  ghost function Weight(d: nat, n: nat, paths: seq<seq<Node>>): nat {
    if paths == [] then 0
    else Weight(d, n, paths[..|paths| - 1]) + PathWeight(d, n, |paths[|paths| - 1]|)
  }

  lemma WeightSnoc(d: nat, n: nat, paths: seq<seq<Node>>, p: seq<Node>)
    ensures Weight(d, n, paths + [p]) == Weight(d, n, paths) + PathWeight(d, n, |p|)
  {
    assert (paths + [p])[..|paths|] == paths;
  }

  /** Trading a path for at most d one step longer ones lowers the weight. */
  lemma WeightDrops(d: nat, n: nat, length: nat, pushes: nat)
    requires pushes <= d && 0 < length <= n
    ensures pushes * PathWeight(d, n, length + 1) < PathWeight(d, n, length)
  {
    var u := PathWeight(d, n, length + 1);
    assert pushes * u <= d * u;
    if length < n {
      assert PathWeight(d, n, length) == (d + 1) * u == d * u + u;
    }
  }

  lemma {:induction false} MaxDegree(pc: Children, keys: set<Node>) returns (d: nat)
    requires keys <= pc.Keys
    ensures forall k :: k in keys ==> |pc[k]| <= d
  {
    if keys == {} {
      d := 0;
    } else {
      var k :| k in keys;
      d := MaxDegree(pc, keys - {k});
      d := if |pc[k]| > d then |pc[k]| else d;
    }
  }

  lemma PathFits(pc: Children, start: Node, p: seq<Node>)
    requires start in pc && IsPathFrom(EdgesOf(pc), start, p)
    ensures |p| <= |NodesOf(pc)|
  {
    forall e | e in EdgesOf(pc)
      ensures e.0 in NodesOf(pc) && e.1 in NodesOf(pc)
    {
      EdgeIff(pc, e.0, e.1);
    }
    WalkStaysWithin(NodesOf(pc), EdgesOf(pc), p);
    DistinctFits(p, NodesOf(pc));
  }

  // ---------- the search ----------

  lemma ExtendPath(g: Graph, start: Node, path: seq<Node>, child: Node)
    requires IsPathFrom(g, start, path) && (path[|path| - 1], child) in g && child !in path
    ensures IsPathFrom(g, start, path + [child])
  {
    var p := path + [child];
    forall k | 0 <= k < |p| - 1
      ensures (p[k], p[k + 1]) in g
    {
      if k < |path| - 1 {
        assert (path[k], path[k + 1]) in g;
      }
    }
  }

  /** State while the children of the path just popped are tried in turn. */
  ghost predicate ExpandInv(pc: Children, start: Node, visited0: set<Node>, path: seq<Node>, tried: seq<Node>,
                            cycles: seq<seq<Node>>, seen: set<seq<Node>>, paths: seq<seq<Node>>, visited: set<Node>)
  {
    && SoundYields(EdgesOf(pc), cycles)
    && StackInv(pc, start, cycles, seen, paths, path)
    && IsPathFrom(EdgesOf(pc), start, path)
    && MarksSeen(visited0, visited, seen)
    && (forall x :: x in tried ==> ChildHandled(cycles, seen, path, x))
  }

  lemma TryBackEdge(pc: Children, start: Node, visited0: set<Node>, path: seq<Node>, tried: seq<Node>, child: Node,
                    cycles: seq<seq<Node>>, more: seq<seq<Node>>, seen: set<seq<Node>>, paths: seq<seq<Node>>,
                    visited: set<Node>)
    requires ExpandInv(pc, start, visited0, path, tried, cycles, seen, paths, visited)
    requires child in path && cycles <= more && SoundYields(EdgesOf(pc), more)
    requires Recorded(more, path[IndexOf(path, child)..])
    ensures ExpandInv(pc, start, visited0, path, tried + [child], more, seen, paths, visited)
  {
    hide SoundYields, IsPathFrom, StackInv, MarksSeen, Recorded;
    StackGrows(pc, start, cycles, more, seen, paths, path, []);
    assert seen + Elements([]) == seen && paths + [] == paths;
    forall x | x in tried + [child]
      ensures ChildHandled(more, seen, path, x)
    {
      if x in tried {
        HandledGrows(cycles, more, seen, seen, path, x);
      }
    }
  }

  lemma TryForward(pc: Children, start: Node, visited0: set<Node>, path: seq<Node>, tried: seq<Node>, child: Node,
                   cycles: seq<seq<Node>>, seen: set<seq<Node>>, paths: seq<seq<Node>>, visited: set<Node>)
    requires ExpandInv(pc, start, visited0, path, tried, cycles, seen, paths, visited)
    requires child !in path && |path| > 0 && (path[|path| - 1], child) in EdgesOf(pc)
    ensures var p := path + [child];
      ExpandInv(pc, start, visited0, path, tried + [child], cycles, seen + {p}, paths + [p], visited + {child})
  {
    hide SoundYields, IsPathFrom, StackInv, EdgesOf;
    var p := path + [child];
    ExtendPath(EdgesOf(pc), start, path, child);
    StackGrows(pc, start, cycles, cycles, seen, paths, path, [p]);
    assert Elements([p]) == {p};
    forall x | x in tried + [child]
      ensures ChildHandled(cycles, seen + {p}, path, x)
    {
      if x in tried {
        HandledGrows(cycles, cycles, seen, seen + {p}, path, x);
      }
    }
    assert p[|p| - 1] == child && p in seen + {p};
  }

  lemma ExpandDone(pc: Children, start: Node, visited0: set<Node>, path: seq<Node>,
                   cycles: seq<seq<Node>>, seen: set<seq<Node>>, paths: seq<seq<Node>>, visited: set<Node>)
    requires |path| > 0
    requires ExpandInv(pc, start, visited0, path, Kids(pc, path[|path| - 1]), cycles, seen, paths, visited)
    ensures StackInv(pc, start, cycles, seen, paths, [])
  {
    hide SoundYields, IsPathFrom, StackInv, MarksSeen, ChildHandled;
    forall x | (path[|path| - 1], x) in EdgesOf(pc)
      ensures ChildHandled(cycles, seen, path, x)
    {
      EdgeIff(pc, path[|path| - 1], x);
    }
    StackDone(pc, start, cycles, seen, paths, path);
  }

  lemma ExpandStart(pc: Children, start: Node, visited0: set<Node>, cycles: seq<seq<Node>>, seen: set<seq<Node>>,
                    paths: seq<seq<Node>>, visited: set<Node>)
    requires |paths| > 0 && SoundYields(EdgesOf(pc), cycles)
    requires StackInv(pc, start, cycles, seen, paths, []) && MarksSeen(visited0, visited, seen)
    ensures var top := paths[|paths| - 1];
      |top| > 0 && ExpandInv(pc, start, visited0, top, [], cycles, seen, paths[..|paths| - 1], visited)
  {
    StackPop(pc, start, cycles, seen, paths);
    hide SoundYields, StackInv, MarksSeen;
  }

  lemma ExpandFacts(pc: Children, start: Node, visited0: set<Node>, path: seq<Node>, tried: seq<Node>,
                    cycles: seq<seq<Node>>, seen: set<seq<Node>>, paths: seq<seq<Node>>, visited: set<Node>)
    requires ExpandInv(pc, start, visited0, path, tried, cycles, seen, paths, visited)
    ensures SoundYields(EdgesOf(pc), cycles) && MarksSeen(visited0, visited, seen)
    ensures IsPathFrom(EdgesOf(pc), start, path)
  {
  }

  /** Try every child of a popped path: record the cycle it closes, or push the path one
      step longer and mark the child. */
  method Expand(pc: Children, ghost start: Node, ghost visited0: set<Node>, path: seq<Node>,
                cycles0: seq<seq<Node>>, ghost seen0: set<seq<Node>>, paths0: seq<seq<Node>>, visitedBefore: set<Node>,
                ghost d: nat, ghost n: nat)
    returns (cycles: seq<seq<Node>>, ghost seen: set<seq<Node>>, paths: seq<seq<Node>>, visited: set<Node>)
    requires |path| > 0 && path[|path| - 1] in pc
    requires ExpandInv(pc, start, visited0, path, [], cycles0, seen0, paths0, visitedBefore)
    ensures ExpandInv(pc, start, visited0, path, Kids(pc, path[|path| - 1]), cycles, seen, paths, visited)
    ensures cycles0 <= cycles && visitedBefore <= visited
    ensures Weight(d, n, paths) <= Weight(d, n, paths0) + |pc[path[|path| - 1]]| * PathWeight(d, n, |path| + 1)
  {
    hide *;
    cycles, seen, paths, visited := cycles0, seen0, paths0, visitedBefore;
    var parent := path[|path| - 1];
    var children := pc[parent];
    ghost var u := PathWeight(d, n, |path| + 1);
    for j := 0 to |children|
      invariant ExpandInv(pc, start, visited0, path, children[..j], cycles, seen, paths, visited)
      invariant cycles0 <= cycles && visitedBefore <= visited
      invariant Weight(d, n, paths) <= Weight(d, n, paths0) + j * u
    {
      var child := children[j];
      assert children[..j + 1] == children[..j] + [child];
      ExpandFacts(pc, start, visited0, path, children[..j], cycles, seen, paths, visited);
      EdgeIff(pc, parent, child);
      assert (j + 1) * u == j * u + u;
      if child in path {
        var cycle := path[IndexOf(path, child)..];
        BackEdgeCycle(EdgesOf(pc), start, path, child);
        ghost var before := cycles;
        cycles := Record(EdgesOf(pc), cycles, cycle);
        TryBackEdge(pc, start, visited0, path, children[..j], child, before, cycles, seen, paths, visited);
      } else {
        TryForward(pc, start, visited0, path, children[..j], child, cycles, seen, paths, visited);
        WeightSnoc(d, n, paths, path + [child]);
        paths := paths + [path + [child]];
        visited := visited + {child};
        seen := seen + {path + [child]};
      }
    }
    assert children[..|children|] == children;
    KidsOfKey(pc, parent);
  }

  lemma KidsOfKey(pc: Children, x: Node)
    ensures x in pc ==> Kids(pc, x) == pc[x]
    ensures x !in pc ==> Kids(pc, x) == []
  {
  }

  lemma SearchStart(pc: Children, start: Node, cycles: seq<seq<Node>>)
    ensures StackInv(pc, start, cycles, {[start]}, [[start]], [])
  {
    assert [[start]][0] in [[start]];
  }

  lemma SearchEnd(pc: Children, start: Node, cycles: seq<seq<Node>>, seen: set<seq<Node>>,
                  visited0: set<Node>, visited: set<Node>, v: Node)
    requires StackInv(pc, start, cycles, seen, [], []) && MarksSeen(visited0, visited, seen)
    requires v == start || (v in visited && v !in visited0)
    ensures AllRecordedThrough(EdgesOf(pc), cycles, v)
  {
    hide Expanded, EdgesOf, Recorded, IsSimpleCycle;
    assert Exhausted(pc, cycles, start, seen);
    var p: seq<Node>;
    if v == start {
      p := [start];
    } else {
      p :| p in seen && |p| > 0 && p[|p| - 1] == v;
    }
    forall c | IsSimpleCycle(EdgesOf(pc), c) && v in c
      ensures Recorded(cycles, c)
    {
      ReachableCycleRecorded(pc, cycles, start, seen, p, c);
    }
  }

  /** Search every simple path from one start node. */
  method SearchFrom(pc: Children, start: Node, cycles0: seq<seq<Node>>, visited0: set<Node>)
    returns (cycles: seq<seq<Node>>, visited: set<Node>)
    requires start in pc && SoundYields(EdgesOf(pc), cycles0)
    ensures SoundYields(EdgesOf(pc), cycles) && cycles0 <= cycles && visited0 <= visited
    ensures AllRecordedThrough(EdgesOf(pc), cycles, start)
    ensures forall v :: v in visited && v !in visited0 ==> AllRecordedThrough(EdgesOf(pc), cycles, v)
  {
    hide *;
    cycles, visited := cycles0, visited0;
    ghost var seen := {[start]};
    ghost var d := MaxDegree(pc, pc.Keys);
    ghost var n := |NodesOf(pc)|;
    var paths := [[start]];
    SearchStart(pc, start, cycles);
    assert MarksSeen(visited0, visited, seen) by { NoMarksYet(visited0, seen); }
    while |paths| > 0
      invariant SoundYields(EdgesOf(pc), cycles) && cycles0 <= cycles && visited0 <= visited
      invariant StackInv(pc, start, cycles, seen, paths, [])
      invariant MarksSeen(visited0, visited, seen)
      decreases Weight(d, n, paths)
    {
      ExpandStart(pc, start, visited0, cycles, seen, paths, visited);
      var path := paths[|paths| - 1];
      PoppedWeight(d, n, paths);
      paths := paths[..|paths| - 1];
      var parent := path[|path| - 1];
      ExpandFacts(pc, start, visited0, path, [], cycles, seen, paths, visited);
      PathFits(pc, start, path);
      KidsOfKey(pc, parent);
      WeightDrops(d, n, |path|, if parent in pc then |pc[parent]| else 0);
      if parent in pc {
        cycles, seen, paths, visited := Expand(pc, start, visited0, path, cycles, seen, paths, visited, d, n);
      }
      ExpandDone(pc, start, visited0, path, cycles, seen, paths, visited);
      ExpandFacts(pc, start, visited0, path, Kids(pc, parent), cycles, seen, paths, visited);
    }
    assert paths == [];
    forall v | v == start || (v in visited && v !in visited0)
      ensures AllRecordedThrough(EdgesOf(pc), cycles, v)
    {
      SearchEnd(pc, start, cycles, seen, visited0, visited, v);
    }
  }

  lemma NoMarksYet(visited: set<Node>, seen: set<seq<Node>>)
    ensures MarksSeen(visited, visited, seen)
  {
  }

  lemma PoppedWeight(d: nat, n: nat, paths: seq<seq<Node>>)
    requires |paths| > 0
    ensures Weight(d, n, paths) == Weight(d, n, paths[..|paths| - 1]) + PathWeight(d, n, |paths[|paths| - 1]|)
  {
  }

  lemma ThroughGrows(g: Graph, cycles: seq<seq<Node>>, more: seq<seq<Node>>, v: Node)
    requires cycles <= more && AllRecordedThrough(g, cycles, v)
    ensures AllRecordedThrough(g, more, v)
  {
    forall c | IsSimpleCycle(g, c) && v in c
      ensures Recorded(more, c)
    {
      RecordedGrows(cycles, more, c);
    }
  }

  /** All the yields, in order; the keys are walked in whatever order the dictionary has. */
  method FindCycles(pc: Children) returns (cycles: seq<seq<Node>>)
    ensures AreCyclesOf(EdgesOf(pc), cycles)
    ensures cycles == [] <==> Acyclic(EdgesOf(pc))
  {
    hide AllRecordedThrough;
    ghost var g := EdgesOf(pc);
    cycles := [];
    var visitedNodes: set<Node> := {};
    var keys := pc.Keys;
    while keys != {}
      invariant keys <= pc.Keys
      invariant SoundYields(g, cycles)
      invariant forall v :: v in visitedNodes || (v in pc && v !in keys) ==> AllRecordedThrough(g, cycles, v)
      decreases keys
    {
      hide *;
      var parent :| parent in keys;
      keys := keys - {parent};
      if parent !in visitedNodes {
        ghost var before, marked := cycles, visitedNodes;
        cycles, visitedNodes := SearchFrom(pc, parent, cycles, visitedNodes);
        forall v | v in marked || (v in pc && v !in keys && v != parent)
          ensures AllRecordedThrough(g, cycles, v)
        {
          ThroughGrows(g, before, cycles, v);
        }
      }
    }
    YieldsConclude(pc, cycles);
  }

  lemma YieldsConclude(pc: Children, cycles: seq<seq<Node>>)
    requires SoundYields(EdgesOf(pc), cycles)
    requires forall v :: v in pc ==> AllRecordedThrough(EdgesOf(pc), cycles, v)
    ensures AreCyclesOf(EdgesOf(pc), cycles)
    ensures cycles == [] <==> Acyclic(EdgesOf(pc))
  {
    hide EdgesOf, IsSimpleCycle, IsRotation, AllRecordedThrough, Acyclic;
    forall c | IsSimpleCycle(EdgesOf(pc), c)
      ensures Recorded(cycles, c)
    {
      CycleThroughKey(pc, cycles, c);
    }
    AcyclicIffNoSimpleCycle(EdgesOf(pc));
    if cycles != [] {
      assert IsSimpleCycle(EdgesOf(pc), cycles[0]);
    }
  }

  lemma CycleThroughKey(pc: Children, cycles: seq<seq<Node>>, c: seq<Node>)
    requires forall v :: v in pc ==> AllRecordedThrough(EdgesOf(pc), cycles, v)
    requires IsSimpleCycle(EdgesOf(pc), c)
    ensures Recorded(cycles, c)
  {
    hide Recorded;
    var v := c[|c| - 1];
    EdgeIff(pc, v, c[0]);
  }
}
