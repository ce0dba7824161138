/** What the gathered paths say: which steps lead out of a type, and how they read in a path. */
module GatheringGraph {
  import opened Graphs
  import opened Gathering
  import opened Paths

  // ---------- the steps ----------

  lemma {:induction false} InEdgesFrom<T>(s: seq<T>, f: T -> seq<Edge>, e: Edge)
    ensures e in EdgesFrom(s, f) <==> exists i :: 0 <= i < |s| && e in f(s[i])
  {
    if s != [] {
      var init := s[..|s| - 1];
      InEdgesFrom(init, f, e);
      assert forall i :: 0 <= i < |init| ==> init[i] == s[i];
      assert e in EdgesFrom(s, f) <==> e in EdgesFrom(init, f) || e in f(s[|s| - 1]);
    }
  }

  /** A pointer to anything but a plain Object leads to what it points to, under its name, and a
      container leads to its items. */
  ghost predicate AttributeLeads(lib: Library, a: Attribute, e: Edge) {
    || (a.Pointer? && a.pointee != lib.objectType && e == Edge(a.name, a.pointee))
    || (a.Container? && e == Edge(a.name + "/[i]", a.item))
  }

  /** A type leads to each registered type below it. */
  ghost predicate ChildLeads(lib: Library, t: TypeId, child: TypeId, e: Edge) {
    lib.isChildOf(child, t) && e == Edge("$" + lib.name(child), child)
  }

  /** And to whatever is aggregated with it, listed either way round. */
  ghost predicate AggregateLeads(lib: Library, t: TypeId, pair: (TypeId, TypeId), e: Edge) {
    (pair == (t, e.target) || pair == (e.target, t)) && e.text == "$" + lib.name(e.target)
  }

  /** These are all the steps there are. */
  lemma OutEdgesIff(lib: Library, aggregates: seq<(TypeId, TypeId)>, t: TypeId, e: Edge)
    ensures e in OutEdges(lib, aggregates)(t) <==>
      || (exists a :: a in lib.attributes(t) && AttributeLeads(lib, a, e))
      || (exists child :: child in lib.registered && ChildLeads(lib, t, child, e))
      || (exists pair :: pair in aggregates && AggregateLeads(lib, t, pair, e))
  {
    InEdgesFrom(lib.attributes(t), ByAttribute(lib), e);
    InEdgesFrom(lib.registered, ByChild(lib, t), e);
    InEdgesFrom(aggregates, ByAggregate(lib, t), e);
    hide EdgesFrom;
    LeadsFrom(lib, t);
    hide AttributeLeads, ChildLeads, AggregateLeads, AttributeEdge, ChildEdge, AggregateEdge;
  }

  lemma LeadsFrom(lib: Library, t: TypeId)
    ensures forall a, e :: AttributeLeads(lib, a, e) <==> e in AttributeEdge(lib, a)
    ensures forall a, e :: AttributeLeads(lib, a, e) <==> AttributeEdge(lib, a) == [e]
    ensures forall c, e :: ChildLeads(lib, t, c, e) <==> e in ChildEdge(lib, t, c)
    ensures forall c, e :: ChildLeads(lib, t, c, e) <==> ChildEdge(lib, t, c) == [e]
    ensures forall p, e :: AggregateLeads(lib, t, p, e) <==> e in AggregateEdge(lib, t, p)
    ensures forall p, e :: AggregateLeads(lib, t, p, e) <==> AggregateEdge(lib, t, p) == [e]
  {
  }

  // ---------- the order of the steps ----------

  /** The k-th step comes from the element at the k-th place, the places rise, and none that leads
      anywhere is left out. */
  ghost predicate Places<T(!new)>(edges: seq<Edge>, s: seq<T>, leads: (T, Edge) -> bool, at: seq<nat>) {
    && |at| == |edges|
    && (forall j, k :: 0 <= j < k < |at| ==> at[j] < at[k])
    && (forall k :: 0 <= k < |at| ==> at[k] < |s| && leads(s[at[k]], edges[k]))
    && (forall i, e :: 0 <= i < |s| && leads(s[i], e) ==> i in at)
  }

  ghost predicate InOrder<T(!new)>(edges: seq<Edge>, s: seq<T>, leads: (T, Edge) -> bool) {
    exists at: seq<nat> :: Places(edges, s, leads, at)
  }

  lemma PlacesSkip<T(!new)>(edges: seq<Edge>, s: seq<T>, leads: (T, Edge) -> bool, at: seq<nat>, x: T)
    requires Places(edges, s, leads, at) && forall e :: !leads(x, e)
    ensures Places(edges, s + [x], leads, at)
  {
  }

  lemma PlacesMore<T(!new)>(edges: seq<Edge>, s: seq<T>, leads: (T, Edge) -> bool, at: seq<nat>, x: T, e: Edge)
    requires Places(edges, s, leads, at) && leads(x, e)
    ensures Places(edges + [e], s + [x], leads, at + [|s|])
  {
    var more, all := at + [|s|], s + [x];
    assert more[|at|] == |s| && |s| in more;
    forall i, d | 0 <= i < |all| && leads(all[i], d)
      ensures i in more
    {
      if i < |s| {
        assert leads(s[i], d) && i in at;
      }
    }
  }

  lemma OneMoreInOrder<T(!new)>(edges: seq<Edge>, s: seq<T>, leads: (T, Edge) -> bool, x: T, more: seq<Edge>)
    requires InOrder(edges, s, leads) && |more| <= 1
    requires forall e :: leads(x, e) <==> more == [e]
    ensures InOrder(edges + more, s + [x], leads)
  {
    var at: seq<nat> :| Places(edges, s, leads, at);
    hide Places;
    if more == [] {
      PlacesSkip(edges, s, leads, at, x);
      assert edges + more == edges;
    } else {
      assert more == [more[0]];
      PlacesMore(edges, s, leads, at, x, more[0]);
    }
  }

  lemma {:induction false} EdgesInOrder<T(!new)>(s: seq<T>, f: T -> seq<Edge>, leads: (T, Edge) -> bool)
    requires forall x :: |f(x)| <= 1
    requires forall x, e :: leads(x, e) <==> f(x) == [e]
    ensures InOrder(EdgesFrom(s, f), s, leads)
  {
    if s == [] {
      assert Places(EdgesFrom(s, f), s, leads, []);
    } else {
      hide InOrder;
      var init, x := s[..|s| - 1], s[|s| - 1];
      EdgesInOrder(init, f, leads);
      OneMoreInOrder(EdgesFrom(init, f), init, leads, x, f(x));
      assert s == init + [x];
    }
  }

  ghost predicate StepsInOrder(lib: Library, aggregates: seq<(TypeId, TypeId)>, t: TypeId, own: seq<Edge>,
                               below: seq<Edge>, beside: seq<Edge>) {
    && InOrder(own, lib.attributes(t), (a, e) => AttributeLeads(lib, a, e))
    && InOrder(below, lib.registered, (child, e) => ChildLeads(lib, t, child, e))
    && InOrder(beside, aggregates, (pair, e) => AggregateLeads(lib, t, pair, e))
  }

  /** The steps come in the order of the attributes, then of the registered types, then of the
      aggregations, each as often as it is listed. */
  lemma OutEdgesInOrder(lib: Library, aggregates: seq<(TypeId, TypeId)>, t: TypeId)
    ensures exists own, below, beside ::
      StepsInOrder(lib, aggregates, t, own, below, beside) && OutEdges(lib, aggregates)(t) == own + below + beside
  {
    LeadsFrom(lib, t);
    hide AttributeLeads, ChildLeads, AggregateLeads;
    EdgesInOrder(lib.attributes(t), ByAttribute(lib), (a, e) => AttributeLeads(lib, a, e));
    EdgesInOrder(lib.registered, ByChild(lib, t), (child, e) => ChildLeads(lib, t, child, e));
    EdgesInOrder(aggregates, ByAggregate(lib, t), (pair, e) => AggregateLeads(lib, t, pair, e));
    hide EdgesFrom, InOrder;
    assert StepsInOrder(lib, aggregates, t, EdgesFrom(lib.attributes(t), ByAttribute(lib)),
                        EdgesFrom(lib.registered, ByChild(lib, t)), EdgesFrom(aggregates, ByAggregate(lib, t)));
  }

  // ---------- the text of a path ----------

  ghost function AllSplit(labels: seq<string>): seq<string> {
    if labels == [] then [] else AllSplit(labels[..|labels| - 1]) + Split(labels[|labels| - 1])
  }

  /** Between its slashes a path reads its labels one after the other, behind the slash in front. */
  lemma {:induction false} PathPieces(labels: seq<string>)
    ensures Split(PathText(labels)) == [""] + AllSplit(labels)
  {
    if labels != [] {
      var init, last := labels[..|labels| - 1], labels[|labels| - 1];
      PathPieces(init);
      SplitAtSlash(PathText(init), last);
      hide Split;
      assert [""] + AllSplit(init) + Split(last) == [""] + (AllSplit(init) + Split(last));
    }
  }

  lemma {:induction false} AllSplitPlain(labels: seq<string>)
    requires forall i :: 0 <= i < |labels| ==> '/' !in labels[i]
    ensures AllSplit(labels) == labels
  {
    if labels != [] {
      AllSplitPlain(labels[..|labels| - 1]);
      SplitNoSlash(labels[|labels| - 1]);
      hide Split;
    }
  }

  /** So a path whose labels hold no slash tells them all. */
  lemma PathTells(labels: seq<string>)
    requires forall i :: 0 <= i < |labels| ==> '/' !in labels[i]
    ensures Split(PathText(labels)) == [""] + labels
  {
    PathPieces(labels);
    AllSplitPlain(labels);
  }

  /** A container's step reads as two pieces, the second an index. */
  lemma ContainerPieces(name: string)
    requires '/' !in name
    ensures Split(name + "/[i]") == [name, "[i]"]
  {
    SplitAtSlash(name, "[i]");
    SplitNoSlash(name);
    SplitNoSlash("[i]");
    assert name + "/[i]" == name + "/" + "[i]";
  }
}
