/** Gathering every configuration path of a type: a backtracking search of the type graph
    that records one entry per simple walk. */
module Gathering {
  import opened Graphs

  /** A TypeId; types are identified by themselves, their names come from the library. */
  type TypeId = Node

  datatype Attribute =
    | Pointer(name: string, pointee: TypeId)
    | Container(name: string, item: TypeId)
    | Other(name: string)

  /** What the program asks the type library: attributes, names, registration order, the
      child relation, and the root type Object. */
  datatype Library = Library(attributes: TypeId -> seq<Attribute>, name: TypeId -> string,
                             registered: seq<TypeId>, isChildOf: (TypeId, TypeId) -> bool, objectType: TypeId)

  /** A step of a path: the text it adds and the type it leads to. */
  datatype Edge = Edge(text: string, target: TypeId)

  type TypeGraph = TypeId -> seq<Edge>

  // ---------- the type graph ----------

  /** Pointers to a plain Object are not followed. */
  function AttributeEdge(lib: Library, a: Attribute): seq<Edge> {
    match a
    case Pointer(name, pointee) => if pointee == lib.objectType then [] else [Edge(name, pointee)]
    case Container(name, item) => [Edge(name + "/[i]", item)]
    case Other(_) => []
  }

  function ChildEdge(lib: Library, t: TypeId, child: TypeId): seq<Edge> {
    if lib.isChildOf(child, t) then [Edge("$" + lib.name(child), child)] else []
  }

  /** The other end of an aggregation t takes part in; of an aggregation with itself, t. */
  function AggregateEdge(lib: Library, t: TypeId, pair: (TypeId, TypeId)): seq<Edge> {
    if pair.1 == t then [Edge("$" + lib.name(pair.0), pair.0)]
    else if pair.0 == t then [Edge("$" + lib.name(pair.1), pair.1)]
    else []
  }

  function EdgesFrom<T>(s: seq<T>, f: T -> seq<Edge>): seq<Edge> {
    if s == [] then [] else EdgesFrom(s[..|s| - 1], f) + f(s[|s| - 1])
  }

  function ByAttribute(lib: Library): Attribute -> seq<Edge> {
    a => AttributeEdge(lib, a)
  }

  function ByChild(lib: Library, t: TypeId): TypeId -> seq<Edge> {
    child => ChildEdge(lib, t, child)
  }

  function ByAggregate(lib: Library, t: TypeId): ((TypeId, TypeId)) -> seq<Edge> {
    pair => AggregateEdge(lib, t, pair)
  }

  function OutEdges(lib: Library, aggregates: seq<(TypeId, TypeId)>): TypeGraph {
    t => EdgesFrom(lib.attributes(t), ByAttribute(lib)) + EdgesFrom(lib.registered, ByChild(lib, t))
         + EdgesFrom(aggregates, ByAggregate(lib, t))
  }

  lemma {:induction false} EdgesFromPrefix<T>(s: seq<T>, f: T -> seq<Edge>, k: nat)
    requires k <= |s|
    ensures EdgesFrom(s[..k], f) <= EdgesFrom(s, f)
    decreases |s|
  {
    if k == |s| {
      assert s[..k] == s;
    } else {
      EdgesFromPrefix(s[..|s| - 1], f, k);
      assert s[..|s| - 1][..k] == s[..k];
    }
  }

  lemma EdgesFromNone<T>(f: T -> seq<Edge>)
    ensures EdgesFrom([], f) == []
  {
  }

  /** The edge an element contributes comes right after those of the elements before it. */
  lemma EdgesFromNext<T>(s: seq<T>, f: T -> seq<Edge>, i: nat)
    requires i < |s|
    ensures EdgesFrom(s[..i + 1], f) == EdgesFrom(s[..i], f) + f(s[i])
    ensures EdgesFrom(s[..i], f) + f(s[i]) <= EdgesFrom(s, f)
  {
    assert s[..i + 1][..i] == s[..i];
    EdgesFromPrefix(s, f, i + 1);
  }

  // ---------- how many edges come before ----------

  /** The edges of t that come from its first k attributes. */
  ghost function FromAttributes(lib: Library, t: TypeId, k: nat): nat
    requires k <= |lib.attributes(t)|
  {
    |EdgesFrom(lib.attributes(t)[..k], ByAttribute(lib))|
  }

  /** All from attributes, and those from the first k registered types. */
  ghost function FromChildren(lib: Library, t: TypeId, k: nat): nat
    requires k <= |lib.registered|
  {
    |EdgesFrom(lib.attributes(t), ByAttribute(lib))| + |EdgesFrom(lib.registered[..k], ByChild(lib, t))|
  }

  /** All from attributes and registered types, and those from the first k aggregations. */
  ghost function FromAggregates(lib: Library, aggregates: seq<(TypeId, TypeId)>, t: TypeId, k: nat): nat
    requires k <= |aggregates|
  {
    |EdgesFrom(lib.attributes(t), ByAttribute(lib))| + |EdgesFrom(lib.registered, ByChild(lib, t))|
    + |EdgesFrom(aggregates[..k], ByAggregate(lib, t))|
  }

  lemma PhasesMeet(lib: Library, aggregates: seq<(TypeId, TypeId)>, t: TypeId)
    ensures FromAttributes(lib, t, 0) == 0
    ensures FromAttributes(lib, t, |lib.attributes(t)|) == FromChildren(lib, t, 0)
    ensures FromChildren(lib, t, |lib.registered|) == FromAggregates(lib, aggregates, t, 0)
    ensures FromAggregates(lib, aggregates, t, |aggregates|) == |OutEdges(lib, aggregates)(t)|
  {
    EdgesFromNone(ByAttribute(lib));
    EdgesFromNone(ByChild(lib, t));
    EdgesFromNone(ByAggregate(lib, t));
    hide EdgesFrom;
    assert lib.attributes(t)[..|lib.attributes(t)|] == lib.attributes(t);
    assert lib.registered[..|lib.registered|] == lib.registered;
    assert aggregates[..|aggregates|] == aggregates;
  }

  /** The edges an item contributes stand at its place in the list of all edges. */
  ghost predicate EdgesAt(g: TypeGraph, t: TypeId, n: nat, edges: seq<Edge>) {
    n + |edges| <= |g(t)| && g(t)[n..n + |edges|] == edges
  }

  lemma SoleEdge(g: TypeGraph, t: TypeId, n: nat, e: Edge)
    requires EdgesAt(g, t, n, [e])
    ensures n < |g(t)| && g(t)[n] == e
  {
    assert g(t)[n..n + 1][0] == e;
  }

  lemma AttributeAt(lib: Library, aggregates: seq<(TypeId, TypeId)>, t: TypeId, i: nat)
    requires i < |lib.attributes(t)|
    ensures var edges := AttributeEdge(lib, lib.attributes(t)[i]);
      && FromAttributes(lib, t, i + 1) == FromAttributes(lib, t, i) + |edges|
      && EdgesAt(OutEdges(lib, aggregates), t, FromAttributes(lib, t, i), edges)
  {
    EdgesFromNext(lib.attributes(t), ByAttribute(lib), i);
    hide EdgesFrom, AttributeEdge;
  }

  lemma ChildAt(lib: Library, aggregates: seq<(TypeId, TypeId)>, t: TypeId, i: nat)
    requires i < |lib.registered|
    ensures var edges := ChildEdge(lib, t, lib.registered[i]);
      && FromChildren(lib, t, i + 1) == FromChildren(lib, t, i) + |edges|
      && EdgesAt(OutEdges(lib, aggregates), t, FromChildren(lib, t, i), edges)
  {
    EdgesFromNext(lib.registered, ByChild(lib, t), i);
    hide EdgesFrom, ChildEdge;
  }

  lemma AggregateAt(lib: Library, aggregates: seq<(TypeId, TypeId)>, t: TypeId, i: nat)
    requires i < |aggregates|
    ensures var edges := AggregateEdge(lib, t, aggregates[i]);
      && FromAggregates(lib, aggregates, t, i + 1) == FromAggregates(lib, aggregates, t, i) + |edges|
      && EdgesAt(OutEdges(lib, aggregates), t, FromAggregates(lib, aggregates, t, i), edges)
  {
    EdgesFromNext(aggregates, ByAggregate(lib, t), i);
    hide EdgesFrom, AggregateEdge;
  }

  /** All types the search can meet. */
  ghost predicate ClosedUnder(g: TypeGraph, universe: set<TypeId>) {
    forall t, i :: t in universe && 0 <= i < |g(t)| ==> g(t)[i].target in universe
  }

  // ---------- simple walks ----------

  /** A walk is the list of edge numbers taken from its start. */
  type Walk = seq<nat>

  ghost predicate Follows(g: TypeGraph, t: TypeId, w: Walk) {
    w == [] || (w[0] < |g(t)| && Follows(g, g(t)[w[0]].target, w[1..]))
  }

  ghost function TypesOn(g: TypeGraph, t: TypeId, w: Walk): (r: seq<TypeId>)
    requires Follows(g, t, w)
    ensures |r| == |w| + 1
  {
    [t] + if w == [] then [] else TypesOn(g, g(t)[w[0]].target, w[1..])
  }

  ghost function LabelsOn(g: TypeGraph, t: TypeId, w: Walk): seq<string>
    requires Follows(g, t, w)
  {
    if w == [] then [] else [g(t)[w[0]].text] + LabelsOn(g, g(t)[w[0]].target, w[1..])
  }

  /** No type twice, and none of those already being processed. */
  ghost predicate IsSimpleWalk(g: TypeGraph, t: TypeId, visited: set<TypeId>, w: Walk) {
    Follows(g, t, w) && Distinct(TypesOn(g, t, w)) && forall x :: x in TypesOn(g, t, w) ==> x !in visited
  }

  lemma SimpleWalkStep(g: TypeGraph, t: TypeId, visited: set<TypeId>, i: nat, w: Walk)
    ensures IsSimpleWalk(g, t, visited, [i] + w) <==>
      t !in visited && i < |g(t)| && IsSimpleWalk(g, g(t)[i].target, visited + {t}, w)
  {
    var all := [i] + w;
    assert all[1..] == w;
    if i < |g(t)| && Follows(g, g(t)[i].target, w) {
      var types, rest := TypesOn(g, t, all), TypesOn(g, g(t)[i].target, w);
      assert types == [t] + rest;
      DistinctCons(t, rest);
      assert forall x :: x in types <==> x == t || x in rest;
    }
  }

  lemma DistinctCons<T(!new)>(x: T, s: seq<T>)
    ensures Distinct([x] + s) <==> Distinct(s) && x !in s
  {
    var all := [x] + s;
    assert forall k :: 0 <= k < |s| ==> s[k] == all[k + 1];
    if Distinct(all) {
      forall j, k | 0 <= j < k < |s|
        ensures s[j] != s[k]
      {
        assert all[j + 1] != all[k + 1];
      }
      forall k | 0 <= k < |s|
        ensures s[k] != x
      {
        assert all[0] != all[k + 1];
      }
    }
    if Distinct(s) && x !in s {
      forall j, k | 0 <= j < k < |all|
        ensures all[j] != all[k]
      {
        assert all[k] == s[k - 1] && s[k - 1] in s;
      }
    }
  }

  // ---------- enumeration ----------

  ghost function Prefixed(i: nat, walks: seq<Walk>): (r: seq<Walk>)
    ensures |r| == |walks| && forall k :: 0 <= k < |r| ==> r[k] == [i] + walks[k]
  {
    seq(|walks|, k requires 0 <= k < |walks| => [i] + walks[k])
  }

  ghost function WalkList(g: TypeGraph, universe: set<TypeId>, t: TypeId, visited: set<TypeId>): seq<Walk>
    requires ClosedUnder(g, universe) && t in universe
    decreases |universe - visited|, 1, 0
  {
    if t in visited then []
    else
      assert universe - (visited + {t}) < universe - visited;
      StrictlySmaller(universe - (visited + {t}), universe - visited);
      [[]] + WalksVia(g, universe, t, visited + {t}, |g(t)|)
  }

  /** The walks that begin with one of t's first n edges. */
  ghost function WalksVia(g: TypeGraph, universe: set<TypeId>, t: TypeId, visited: set<TypeId>, n: nat): seq<Walk>
    requires ClosedUnder(g, universe) && t in universe && n <= |g(t)|
    decreases |universe - visited|, 2, n
  {
    if n == 0 then []
    else WalksVia(g, universe, t, visited, n - 1)
         + Prefixed(n - 1, WalkList(g, universe, g(t)[n - 1].target, visited))
  }

  lemma StrictlySmaller<T>(a: set<T>, b: set<T>)
    requires a < b
    ensures |a| < |b|
  {
    var x :| x in b && x !in a;
    assert a <= b - {x};
    assert b == a + (b - a);
  }

  lemma {:induction false} WalkListExact(g: TypeGraph, universe: set<TypeId>, t: TypeId, visited: set<TypeId>, w: Walk)
    requires ClosedUnder(g, universe) && t in universe
    ensures w in WalkList(g, universe, t, visited) <==> IsSimpleWalk(g, t, visited, w)
    decreases |w|, 1, 0
  {
    if w == [] {
      assert TypesOn(g, t, w) == [t];
      WalksViaExact(g, universe, t, visited + {t}, |g(t)|, w);
    } else {
      SimpleWalkStep(g, t, visited, w[0], w[1..]);
      assert w == [w[0]] + w[1..];
      WalksViaExact(g, universe, t, visited + {t}, |g(t)|, w);
      hide IsSimpleWalk, WalksVia;
      if t !in visited {
        var rest := WalksVia(g, universe, t, visited + {t}, |g(t)|);
        assert WalkList(g, universe, t, visited) == [[]] + rest;
      }
    }
  }

  lemma {:induction false} WalksViaExact(g: TypeGraph, universe: set<TypeId>, t: TypeId, visited: set<TypeId>,
                                         n: nat, w: Walk)
    requires ClosedUnder(g, universe) && t in universe && n <= |g(t)|
    ensures w in WalksVia(g, universe, t, visited, n) <==>
      w != [] && w[0] < n && IsSimpleWalk(g, g(t)[w[0]].target, visited, w[1..])
    decreases |w|, 0, n
  {
    hide IsSimpleWalk;
    if n > 0 {
      WalksViaExact(g, universe, t, visited, n - 1, w);
      var next := WalkList(g, universe, g(t)[n - 1].target, visited);
      InPrefixed(n - 1, next, w);
      if w != [] {
        WalkListExact(g, universe, g(t)[n - 1].target, visited, w[1..]);
      }
    }
  }

  lemma InPrefixed(i: nat, walks: seq<Walk>, w: Walk)
    ensures w in Prefixed(i, walks) <==> w != [] && w[0] == i && w[1..] in walks
  {
    var r := Prefixed(i, walks);
    if w != [] && w[0] == i && w[1..] in walks {
      var k :| 0 <= k < |walks| && walks[k] == w[1..];
      assert r[k] == [i] + w[1..];
      assert w == [i] + w[1..];
    }
    if w in r {
      var k :| 0 <= k < |r| && w == r[k];
      assert w[1..] == walks[k];
    }
  }

  lemma {:induction false} WalkListDistinct(g: TypeGraph, universe: set<TypeId>, t: TypeId, visited: set<TypeId>)
    requires ClosedUnder(g, universe) && t in universe
    ensures Distinct(WalkList(g, universe, t, visited))
    decreases |universe - visited|, 1, 0
  {
    if t !in visited {
      StrictlySmaller(universe - (visited + {t}), universe - visited);
      WalksViaDistinct(g, universe, t, visited + {t}, |g(t)|);
      WalksViaExact(g, universe, t, visited + {t}, |g(t)|, []);
      hide WalksVia;
      DistinctConcat([[]], WalksVia(g, universe, t, visited + {t}, |g(t)|));
    }
  }

  lemma {:induction false} WalksViaDistinct(g: TypeGraph, universe: set<TypeId>, t: TypeId, visited: set<TypeId>,
                                            n: nat)
    requires ClosedUnder(g, universe) && t in universe && n <= |g(t)|
    ensures Distinct(WalksVia(g, universe, t, visited, n))
    decreases |universe - visited|, 2, n
  {
    hide IsSimpleWalk, WalkList;
    if n > 0 {
      var before := WalksVia(g, universe, t, visited, n - 1);
      var next := WalkList(g, universe, g(t)[n - 1].target, visited);
      WalksViaDistinct(g, universe, t, visited, n - 1);
      WalkListDistinct(g, universe, g(t)[n - 1].target, visited);
      forall w | w in before
        ensures w !in Prefixed(n - 1, next)
      {
        WalksViaExact(g, universe, t, visited, n - 1, w);
        InPrefixed(n - 1, next, w);
      }
      PrefixedDistinct(n - 1, next);
      DistinctConcat(before, Prefixed(n - 1, next));
    }
  }

  lemma PrefixedDistinct(i: nat, walks: seq<Walk>)
    requires Distinct(walks)
    ensures Distinct(Prefixed(i, walks))
  {
    var r := Prefixed(i, walks);
    forall j, k | 0 <= j < k < |r|
      ensures r[j] != r[k]
    {
      assert r[j][1..] == walks[j] && r[k][1..] == walks[k];
    }
  }

  // ---------- the entries ----------

  ghost function PathText(path: seq<string>): string {
    if path == [] then "" else PathText(path[..|path| - 1]) + "/" + path[|path| - 1]
  }

  /** The type a walk ends at, with the path leading to it. */
  ghost function EntryOf(g: TypeGraph, t: TypeId, path: seq<string>, w: Walk): (TypeId, string)
    requires Follows(g, t, w)
  {
    (TypesOn(g, t, w)[|w|], PathText(path + LabelsOn(g, t, w)))
  }

  /** entries lists the walks' entries one by one. */
  ghost predicate AreEntries(g: TypeGraph, t: TypeId, path: seq<string>, walks: seq<Walk>,
                             entries: seq<(TypeId, string)>)
  {
    |entries| == |walks| &&
    forall k :: 0 <= k < |walks| ==> Follows(g, t, walks[k]) && entries[k] == EntryOf(g, t, path, walks[k])
  }

  lemma EntriesConcat(g: TypeGraph, t: TypeId, path: seq<string>, walks1: seq<Walk>, entries1: seq<(TypeId, string)>,
                      walks2: seq<Walk>, entries2: seq<(TypeId, string)>)
    requires AreEntries(g, t, path, walks1, entries1) && AreEntries(g, t, path, walks2, entries2)
    ensures AreEntries(g, t, path, walks1 + walks2, entries1 + entries2)
  {
    hide EntryOf, Follows;
  }

  lemma EntriesOfPrefixed(g: TypeGraph, t: TypeId, path: seq<string>, i: nat, walks: seq<Walk>,
                          entries: seq<(TypeId, string)>)
    requires i < |g(t)| && AreEntries(g, g(t)[i].target, path + [g(t)[i].text], walks, entries)
    ensures AreEntries(g, t, path, Prefixed(i, walks), entries)
  {
    forall k | 0 <= k < |walks|
      ensures Follows(g, t, Prefixed(i, walks)[k]) && entries[k] == EntryOf(g, t, path, Prefixed(i, walks)[k])
    {
      var w, all := walks[k], Prefixed(i, walks)[k];
      assert all[0] == i && all[1..] == w;
      assert path + LabelsOn(g, t, all) == path + [g(t)[i].text] + LabelsOn(g, g(t)[i].target, w);
    }
  }

  lemma EmptyWalkEntry(g: TypeGraph, t: TypeId, path: seq<string>)
    ensures AreEntries(g, t, path, [[]], [(t, PathText(path))])
  {
    assert path + [] == path;
  }

  // ---------- the gatherer ----------

  class StaticInformation {
    var output: seq<(TypeId, string)>
    var currentPath: seq<string>
    var alreadyProcessed: seq<TypeId>
    var aggregates: seq<(TypeId, TypeId)>

    constructor ()
      ensures output == [] && currentPath == [] && alreadyProcessed == [] && aggregates == []
    {
      output, currentPath, alreadyProcessed, aggregates := [], [], [], [];
    }

    method GetCurrentPath() returns (r: string)
      ensures r == PathText(currentPath)
    {
      r := "";
      for i := 0 to |currentPath|
        invariant r == PathText(currentPath[..i])
      {
        assert currentPath[..i + 1][..i] == currentPath[..i];
        r := r + "/" + currentPath[i];
      }
      assert currentPath[..|currentPath|] == currentPath;
    }

    method RecordOutput(tid: TypeId)
      modifies this`output
      ensures output == old(output) + [(tid, PathText(currentPath))]
    {
      var path := GetCurrentPath();
      output := output + [(tid, path)];
    }

    method HasAlreadyBeenProcessed(tid: TypeId) returns (r: bool)
      ensures r <==> tid in alreadyProcessed
    {
      for i := 0 to |alreadyProcessed|
        invariant tid !in alreadyProcessed[..i]
      {
        if alreadyProcessed[i] == tid {
          return true;
        }
      }
      return false;
    }

    /** Since position base, output holds the entries of tid itself and of the walks that
        begin with its first n edges. */
    ghost predicate GatheredHere(lib: Library, tid: TypeId, universe: set<TypeId>, n: nat, base: nat)
      reads this
      requires ClosedUnder(OutEdges(lib, aggregates), universe) && tid in universe
    {
      && n <= |OutEdges(lib, aggregates)(tid)| && base <= |output|
      && Gathered(OutEdges(lib, aggregates), universe, tid, currentPath, Elements(alreadyProcessed) + {tid}, n,
                  output[base..])
    }

    /** Follow edge number n of tid: descend with the path and the processed stack one
        longer, then pop both. */
    method Follow(lib: Library, tid: TypeId, next: Edge, ghost universe: set<TypeId>, ghost n: nat, ghost base: nat)
      requires ClosedUnder(OutEdges(lib, aggregates), universe) && tid in universe && tid !in alreadyProcessed
      requires EdgesAt(OutEdges(lib, aggregates), tid, n, [next])
      requires GatheredHere(lib, tid, universe, n, base)
      modifies this
      ensures currentPath == old(currentPath) && alreadyProcessed == old(alreadyProcessed)
      ensures aggregates == old(aggregates) && old(output) <= output
      ensures GatheredHere(lib, tid, universe, n + 1, base)
      decreases |universe - Elements(alreadyProcessed)|, 0
    {
      hide EdgesAt, ClosedUnder, WalkList, AreEntries, OutEdges, Gathered, Elements;
      ghost var g, before := OutEdges(lib, aggregates), output;
      SoleEdge(g, tid, n, next);
      TargetInside(g, universe, tid, n);
      DeeperIsSmaller(universe, alreadyProcessed, tid);
      currentPath := currentPath + [next.text];
      alreadyProcessed := alreadyProcessed + [tid];
      DoGather(lib, next.target, universe);
      EdgeGathered(g, universe, tid, next, old(currentPath), old(alreadyProcessed), n, before, output, base);
      alreadyProcessed := alreadyProcessed[..|alreadyProcessed| - 1];
      currentPath := currentPath[..|currentPath| - 1];
      assert alreadyProcessed == old(alreadyProcessed) && currentPath == old(currentPath);
    }

    /** Pointer and container attributes. */
    method GatherAttributes(lib: Library, tid: TypeId, ghost universe: set<TypeId>, ghost base: nat)
      requires ClosedUnder(OutEdges(lib, aggregates), universe) && tid in universe && tid !in alreadyProcessed
      requires GatheredHere(lib, tid, universe, FromAttributes(lib, tid, 0), base)
      modifies this
      ensures currentPath == old(currentPath) && alreadyProcessed == old(alreadyProcessed)
      ensures aggregates == old(aggregates) && old(output) <= output
      ensures GatheredHere(lib, tid, universe, FromAttributes(lib, tid, |lib.attributes(tid)|), base)
      decreases |universe - Elements(alreadyProcessed)|, 1
    {
      hide ClosedUnder, GatheredHere, OutEdges, EdgesAt, FromAttributes;
      var items := lib.attributes(tid);
      for i := 0 to |items|
        invariant currentPath == old(currentPath) && alreadyProcessed == old(alreadyProcessed)
        invariant aggregates == old(aggregates) && old(output) <= output
        invariant GatheredHere(lib, tid, universe, FromAttributes(lib, tid, i), base)
      {
        AttributeAt(lib, aggregates, tid, i);
        ghost var n := FromAttributes(lib, tid, i);
        var info := items[i];
        if info.Pointer? {
          if info.pointee == lib.objectType {
            continue;
          }
          Follow(lib, tid, Edge(info.name, info.pointee), universe, n, base);
          continue;
        }
        if info.Container? {
          Follow(lib, tid, Edge(info.name + "/[i]", info.item), universe, n, base);
          continue;
        }
      }
    }

    /** Registered child types. */
    method GatherChildren(lib: Library, tid: TypeId, ghost universe: set<TypeId>, ghost base: nat)
      requires ClosedUnder(OutEdges(lib, aggregates), universe) && tid in universe && tid !in alreadyProcessed
      requires GatheredHere(lib, tid, universe, FromChildren(lib, tid, 0), base)
      modifies this
      ensures currentPath == old(currentPath) && alreadyProcessed == old(alreadyProcessed)
      ensures aggregates == old(aggregates) && old(output) <= output
      ensures GatheredHere(lib, tid, universe, FromChildren(lib, tid, |lib.registered|), base)
      decreases |universe - Elements(alreadyProcessed)|, 1
    {
      hide ClosedUnder, GatheredHere, OutEdges, EdgesAt, FromChildren;
      var items := lib.registered;
      for i := 0 to |items|
        invariant currentPath == old(currentPath) && alreadyProcessed == old(alreadyProcessed)
        invariant aggregates == old(aggregates) && old(output) <= output
        invariant GatheredHere(lib, tid, universe, FromChildren(lib, tid, i), base)
      {
        ChildAt(lib, aggregates, tid, i);
        ghost var n := FromChildren(lib, tid, i);
        var child := items[i];
        if lib.isChildOf(child, tid) {
          Follow(lib, tid, Edge("$" + lib.name(child), child), universe, n, base);
        }
      }
    }

    /** Types aggregated with tid. */
    method GatherAggregates(lib: Library, tid: TypeId, ghost universe: set<TypeId>, ghost base: nat)
      requires ClosedUnder(OutEdges(lib, aggregates), universe) && tid in universe && tid !in alreadyProcessed
      requires GatheredHere(lib, tid, universe, FromAggregates(lib, aggregates, tid, 0), base)
      modifies this
      ensures currentPath == old(currentPath) && alreadyProcessed == old(alreadyProcessed)
      ensures aggregates == old(aggregates) && old(output) <= output
      ensures GatheredHere(lib, tid, universe, FromAggregates(lib, aggregates, tid, |aggregates|), base)
      decreases |universe - Elements(alreadyProcessed)|, 1
    {
      hide ClosedUnder, GatheredHere, OutEdges, EdgesAt, FromAggregates;
      var items := aggregates;
      for i := 0 to |items|
        invariant currentPath == old(currentPath) && alreadyProcessed == old(alreadyProcessed)
        invariant aggregates == old(aggregates) && old(output) <= output
        invariant GatheredHere(lib, tid, universe, FromAggregates(lib, items, tid, i), base)
      {
        AggregateAt(lib, items, tid, i);
        ghost var n := FromAggregates(lib, items, tid, i);
        var item := items[i];
        if item.0 == tid || item.1 == tid {
          var other := item.1;
          if item.1 == tid {
            other := item.0;
          }
          Follow(lib, tid, Edge("$" + lib.name(other), other), universe, n, base);
        }
      }
    }

    /** Append one entry per simple walk from tid, and leave the two stacks as they were. */
    method DoGather(lib: Library, tid: TypeId, ghost universe: set<TypeId>)
      requires ClosedUnder(OutEdges(lib, aggregates), universe) && tid in universe
      modifies this
      ensures currentPath == old(currentPath) && alreadyProcessed == old(alreadyProcessed)
      ensures aggregates == old(aggregates)
      ensures old(output) <= output
      ensures AreEntries(OutEdges(lib, aggregates), tid, currentPath,
                WalkList(OutEdges(lib, aggregates), universe, tid, Elements(alreadyProcessed)), output[|old(output)|..])
      decreases |universe - Elements(alreadyProcessed)|, 2
    {
      hide *;
      var processed := HasAlreadyBeenProcessed(tid);
      if processed {
        SkippedGather(OutEdges(lib, aggregates), universe, tid, currentPath, Elements(alreadyProcessed));
        assert output[|output|..] == [];
        return;
      }
      ghost var base := |output|;
      RecordOutput(tid);
      assert output[base..] == [(tid, PathText(currentPath))];
      BeginHere(lib, tid, universe, base);
      PhasesMeet(lib, aggregates, tid);
      GatherAttributes(lib, tid, universe, base);
      GatherChildren(lib, tid, universe, base);
      GatherAggregates(lib, tid, universe, base);
      FinishHere(lib, tid, universe, base);
    }

    lemma BeginHere(lib: Library, tid: TypeId, universe: set<TypeId>, base: nat)
      requires ClosedUnder(OutEdges(lib, aggregates), universe) && tid in universe
      requires base <= |output| && output[base..] == [(tid, PathText(currentPath))]
      ensures GatheredHere(lib, tid, universe, 0, base)
    {
      hide Gathered, OutEdges;
      GatherStarts(OutEdges(lib, aggregates), universe, tid, currentPath, Elements(alreadyProcessed) + {tid});
    }

    lemma FinishHere(lib: Library, tid: TypeId, universe: set<TypeId>, base: nat)
      requires ClosedUnder(OutEdges(lib, aggregates), universe) && tid in universe && tid !in alreadyProcessed
      requires GatheredHere(lib, tid, universe, |OutEdges(lib, aggregates)(tid)|, base)
      ensures base <= |output|
      ensures AreEntries(OutEdges(lib, aggregates), tid, currentPath,
                WalkList(OutEdges(lib, aggregates), universe, tid, Elements(alreadyProcessed)), output[base..])
    {
      hide Gathered, AreEntries, WalkList, OutEdges;
      GatherEnds(OutEdges(lib, aggregates), universe, tid, currentPath, Elements(alreadyProcessed), output[base..]);
    }
  }

  /** Everything up to tid's first n edges has been recorded. */
  ghost predicate Gathered(g: TypeGraph, universe: set<TypeId>, tid: TypeId, path: seq<string>, visited: set<TypeId>,
                           n: nat, entries: seq<(TypeId, string)>)
    requires ClosedUnder(g, universe) && tid in universe && n <= |g(tid)|
  {
    AreEntries(g, tid, path, [[]] + WalksVia(g, universe, tid, visited, n), entries)
  }

  lemma TargetInside(g: TypeGraph, universe: set<TypeId>, t: TypeId, n: nat)
    requires ClosedUnder(g, universe) && t in universe && n < |g(t)|
    ensures g(t)[n].target in universe
  {
  }

  lemma DeeperIsSmaller(universe: set<TypeId>, stack: seq<TypeId>, tid: TypeId)
    requires tid in universe && tid !in stack
    ensures Elements(stack + [tid]) == Elements(stack) + {tid}
    ensures |universe - Elements(stack + [tid])| < |universe - Elements(stack)|
  {
    assert forall x :: x in stack + [tid] <==> x in stack || x == tid;
    StrictlySmaller(universe - Elements(stack + [tid]), universe - Elements(stack));
  }

  /** What descending along edge number n adds to what was gathered before. */
  lemma EdgeGathered(g: TypeGraph, universe: set<TypeId>, tid: TypeId, next: Edge, path: seq<string>,
                     stack: seq<TypeId>, n: nat, before: seq<(TypeId, string)>, after: seq<(TypeId, string)>, base: nat)
    requires ClosedUnder(g, universe) && tid in universe && tid !in stack && n < |g(tid)| && g(tid)[n] == next
    requires next.target in universe && base <= |before| && before <= after
    requires Gathered(g, universe, tid, path, Elements(stack) + {tid}, n, before[base..])
    requires AreEntries(g, next.target, path + [next.text],
               WalkList(g, universe, next.target, Elements(stack + [tid])), after[|before|..])
    ensures Gathered(g, universe, tid, path, Elements(stack) + {tid}, n + 1, after[base..])
  {
    hide ClosedUnder, WalkList, AreEntries, Gathered, Elements, Prefixed;
    DeeperIsSmaller(universe, stack, tid);
    var visited, more := Elements(stack) + {tid}, after[|before|..];
    EntriesOfPrefixed(g, tid, path, n, WalkList(g, universe, next.target, visited), more);
    GatherGoesOn(g, universe, tid, path, visited, n, before[base..], more);
    assert after[base..] == before[base..] + more;
  }

  lemma GatherStarts(g: TypeGraph, universe: set<TypeId>, tid: TypeId, path: seq<string>, visited: set<TypeId>)
    requires ClosedUnder(g, universe) && tid in universe
    ensures Gathered(g, universe, tid, path, visited, 0, [(tid, PathText(path))])
  {
    EmptyWalkEntry(g, tid, path);
    hide AreEntries, PathText;
    var none: seq<Walk> := [[]];
    assert none + [] == none;
  }

  lemma GatherGoesOn(g: TypeGraph, universe: set<TypeId>, tid: TypeId, path: seq<string>, visited: set<TypeId>,
                     n: nat, entries: seq<(TypeId, string)>, more: seq<(TypeId, string)>)
    requires ClosedUnder(g, universe) && tid in universe && n < |g(tid)|
    requires Gathered(g, universe, tid, path, visited, n, entries)
    requires AreEntries(g, tid, path, Prefixed(n, WalkList(g, universe, g(tid)[n].target, visited)), more)
    ensures Gathered(g, universe, tid, path, visited, n + 1, entries + more)
  {
    hide AreEntries, Prefixed, WalkList;
    var before := [[]] + WalksVia(g, universe, tid, visited, n);
    var next := Prefixed(n, WalkList(g, universe, g(tid)[n].target, visited));
    EntriesConcat(g, tid, path, before, entries, next, more);
    assert before + next == [[]] + WalksVia(g, universe, tid, visited, n + 1);
  }

  lemma GatherEnds(g: TypeGraph, universe: set<TypeId>, tid: TypeId, path: seq<string>, visited: set<TypeId>,
                   entries: seq<(TypeId, string)>)
    requires ClosedUnder(g, universe) && tid in universe && tid !in visited
    requires Gathered(g, universe, tid, path, visited + {tid}, |g(tid)|, entries)
    ensures AreEntries(g, tid, path, WalkList(g, universe, tid, visited), entries)
  {
    hide AreEntries, WalksVia;
  }

  lemma SkippedGather(g: TypeGraph, universe: set<TypeId>, tid: TypeId, path: seq<string>, visited: set<TypeId>)
    requires ClosedUnder(g, universe) && tid in universe && tid in visited
    ensures AreEntries(g, tid, path, WalkList(g, universe, tid, visited), [])
  {
  }

  /** The entries of a gathering are in one-to-one correspondence with the simple walks from
      its type that avoid the types being processed. */
  lemma OneEntryPerSimpleWalk(g: TypeGraph, universe: set<TypeId>, t: TypeId, visited: set<TypeId>)
    requires ClosedUnder(g, universe) && t in universe
    ensures Distinct(WalkList(g, universe, t, visited))
    ensures forall w :: w in WalkList(g, universe, t, visited) <==> IsSimpleWalk(g, t, visited, w)
  {
    WalkListDistinct(g, universe, t, visited);
    hide WalkList, IsSimpleWalk;
    forall w: Walk
      ensures w in WalkList(g, universe, t, visited) <==> IsSimpleWalk(g, t, visited, w)
    {
      WalkListExact(g, universe, t, visited, w);
    }
  }
}
