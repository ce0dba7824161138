/** All permutations of a list, by inserting its first item everywhere into the permutations
    of the rest. */
module Permutations {
  import opened Graphs

  type Item(==, !new)

  ghost function Factorial(n: nat): nat {
    if n == 0 then 1 else n * Factorial(n - 1)
  }

  function Insert(s: seq<Item>, i: nat, x: Item): seq<Item>
    requires i <= |s|
  {
    s[..i] + [x] + s[i..]
  }

  /** x inserted at each of the first n positions. */
  ghost function Insertions(s: seq<Item>, x: Item, n: nat): (r: seq<seq<Item>>)
    requires n <= |s| + 1
    ensures |r| == n && forall i :: 0 <= i < n ==> r[i] == Insert(s, i, x)
  {
    if n == 0 then [] else Insertions(s, x, n - 1) + [Insert(s, n - 1, x)]
  }

  ghost function InsertionsOfAll(subs: seq<seq<Item>>, x: Item): seq<seq<Item>> {
    if subs == [] then []
    else
      var last := subs[|subs| - 1];
      InsertionsOfAll(subs[..|subs| - 1], x) + Insertions(last, x, |last| + 1)
  }

  ghost function PermList(s: seq<Item>): seq<seq<Item>> {
    if |s| <= 1 then [s] else InsertionsOfAll(PermList(s[1..]), s[0])
  }

  method InsertEverywhere(outLists0: seq<seq<Item>>, subList: seq<Item>, item: Item) returns (outLists: seq<seq<Item>>)
    ensures outLists == outLists0 + Insertions(subList, item, |subList| + 1)
  {
    outLists := outLists0;
    for i := 0 to |subList| + 1
      invariant outLists == outLists0 + Insertions(subList, item, i)
    {
      var newList := Insert(subList, i, item);
      outLists := outLists + [newList];
    }
  }

  /** The list of permutations, n! of them, holding every rearrangement and nothing else. */
  method Permutations(inputList: seq<Item>) returns (outLists: seq<seq<Item>>)
    ensures outLists == PermList(inputList)
  {
    outLists := [];
    if |inputList| > 1 {
      var item := inputList[0];
      var subLists := Permutations(inputList[1..]);
      for j := 0 to |subLists|
        invariant outLists == InsertionsOfAll(subLists[..j], item)
      {
        var subList := subLists[j];
        LastInsertions(subLists[..j + 1], item);
        assert subLists[..j + 1][..j] == subLists[..j];
        hide InsertionsOfAll, Insertions;
        outLists := InsertEverywhere(outLists, subList, item);
      }
      assert subLists[..|subLists|] == subLists;
    } else {
      outLists := [inputList];
    }
  }

  // ---------- exactly the rearrangements ----------

  lemma InsertAdds(s: seq<Item>, i: nat, x: Item)
    requires i <= |s|
    ensures multiset(Insert(s, i, x)) == multiset(s) + multiset{x}
  {
    assert s == s[..i] + s[i..];
  }

  lemma {:induction false} InAllInsertions(subs: seq<seq<Item>>, x: Item, p: seq<Item>)
    ensures p in InsertionsOfAll(subs, x) <==> exists q, i :: q in subs && 0 <= i <= |q| && p == Insert(q, i, x)
  {
    if subs != [] {
      var init, last := subs[..|subs| - 1], subs[|subs| - 1];
      assert subs == init + [last];
      InAllInsertions(init, x, p);
      hide InsertionsOfAll;
      assert InsertionsOfAll(subs, x) == InsertionsOfAll(init, x) + Insertions(last, x, |last| + 1) by {
        LastInsertions(subs, x);
      }
      assert p in Insertions(last, x, |last| + 1) <==> exists i :: 0 <= i <= |last| && p == Insert(last, i, x);
    }
  }

  lemma LastInsertions(subs: seq<seq<Item>>, x: Item)
    requires subs != []
    ensures var last := subs[|subs| - 1];
      InsertionsOfAll(subs, x) == InsertionsOfAll(subs[..|subs| - 1], x) + Insertions(last, x, |last| + 1)
  {
  }

  lemma {:induction false} ListedIsRearranged(s: seq<Item>, p: seq<Item>)
    requires p in PermList(s)
    ensures multiset(p) == multiset(s)
    decreases |s|
  {
    if |s| > 1 {
      PermsAreInsertions(s, p);
      hide PermList, Insert;
      var x, rest := s[0], s[1..];
      var q, i :| q in PermList(rest) && 0 <= i <= |q| && p == Insert(q, i, x);
      ListedIsRearranged(rest, q);
      InsertAdds(q, i, x);
      assert s == [x] + rest;
    }
  }

  lemma {:induction false} RearrangedIsListed(s: seq<Item>, p: seq<Item>)
    requires multiset(p) == multiset(s)
    ensures p in PermList(s)
    decreases |s|
  {
    if |s| <= 1 {
      ShortRearranged(s, p);
    } else {
      PermsAreInsertions(s, p);
      hide PermList, Insert;
      var x, rest := s[0], s[1..];
      assert s == [x] + rest;
      assert multiset(s) == multiset{x} + multiset(rest);
      var q, k := WithoutItem(p, x);
      RearrangedIsListed(rest, q);
    }
  }

  /** p is in the list iff it is a rearrangement of the input. */
  lemma PermListExact(s: seq<Item>, p: seq<Item>)
    ensures p in PermList(s) <==> multiset(p) == multiset(s)
  {
    if p in PermList(s) {
      ListedIsRearranged(s, p);
    }
    if multiset(p) == multiset(s) {
      RearrangedIsListed(s, p);
    }
  }

  lemma PermsAreInsertions(s: seq<Item>, p: seq<Item>)
    requires |s| > 1
    ensures p in PermList(s) <==> exists q, i :: q in PermList(s[1..]) && 0 <= i <= |q| && p == Insert(q, i, s[0])
  {
    InAllInsertions(PermList(s[1..]), s[0], p);
  }

  lemma WithoutItem(p: seq<Item>, x: Item) returns (q: seq<Item>, k: nat)
    requires x in multiset(p)
    ensures k <= |q| && Insert(q, k, x) == p && multiset(q) == multiset(p) - multiset{x}
  {
    k :| 0 <= k < |p| && p[k] == x;
    q := p[..k] + p[k + 1..];
    assert Insert(q, k, x) == p;
    InsertAdds(q, k, x);
  }

  lemma ShortRearranged(s: seq<Item>, p: seq<Item>)
    requires |s| <= 1
    ensures p == s <==> multiset(p) == multiset(s)
  {
    if multiset(p) == multiset(s) {
      assert |p| == |multiset(p)| == |multiset(s)| == |s|;
      if |s| == 1 {
        assert s[0] in multiset(p);
      }
    }
  }

  lemma {:induction false} AllSameLength(s: seq<Item>)
    ensures forall p :: p in PermList(s) ==> |p| == |s|
    decreases |s|
  {
    if |s| > 1 {
      AllSameLength(s[1..]);
      forall p | p in PermList(s)
        ensures |p| == |s|
      {
        InAllInsertions(PermList(s[1..]), s[0], p);
      }
    }
  }

  // ---------- n! of them ----------

  ghost function Times(a: nat, b: nat): nat {
    a * b
  }

  lemma OneMore(a: nat, b: nat)
    ensures Times(0, b) == 0 && Times(a, b) + b == Times(a + 1, b)
  {
  }

  lemma NoInsertions(x: Item)
    ensures InsertionsOfAll([], x) == []
  {
  }

  lemma {:induction false} InsertionsCount(subs: seq<seq<Item>>, x: Item, n: nat)
    requires forall q :: q in subs ==> |q| == n
    ensures |InsertionsOfAll(subs, x)| == Times(|subs|, n + 1)
  {
    hide *;
    if subs == [] {
      NoInsertions(x);
      OneMore(0, n + 1);
    } else {
      var init, last := subs[..|subs| - 1], subs[|subs| - 1];
      assert subs == init + [last];
      assert last in subs;
      InsertionsCount(init, x, n);
      LastInsertions(subs, x);
      OneMore(|init|, n + 1);
    }
  }

  lemma FactorialStep(n: nat)
    requires n > 0
    ensures Factorial(n) == Times(Factorial(n - 1), n)
  {
  }

  lemma {:induction false} PermListCount(s: seq<Item>)
    ensures |PermList(s)| == Factorial(|s|)
    decreases |s|
  {
    if |s| <= 1 {
      assert Factorial(|s|) == 1;
    } else {
      hide Times, Factorial, InsertionsOfAll;
      PermListCount(s[1..]);
      AllSameLength(s[1..]);
      InsertionsCount(PermList(s[1..]), s[0], |s| - 1);
      FactorialStep(|s|);
    }
  }

  // ---------- no repetition ----------

  /** Where x went and what it was put into can be read off the result. */
  lemma InsertInjective(q1: seq<Item>, i: nat, q2: seq<Item>, j: nat, x: Item)
    requires i <= |q1| && j <= |q2| && x !in q1 && x !in q2
    requires Insert(q1, i, x) == Insert(q2, j, x)
    ensures i == j && q1 == q2
  {
    var r := Insert(q1, i, x);
    OnlyThere(q1, i, x, j);
    OnlyThere(q2, j, x, j);
    assert q1 == r[..i] + r[i + 1..];
    assert q2 == r[..j] + r[j + 1..];
  }

  lemma OnlyThere(q: seq<Item>, i: nat, x: Item, k: nat)
    requires i <= |q| && k <= |q| && x !in q
    ensures Insert(q, i, x)[k] == x <==> k == i
  {
    assert Insert(q, i, x)[k] == if k < i then q[k] else if k == i then x else q[k - 1];
  }

  lemma {:induction false} InsertionsDistinct(subs: seq<seq<Item>>, x: Item)
    requires Distinct(subs) && forall q :: q in subs ==> x !in q
    ensures Distinct(InsertionsOfAll(subs, x))
  {
    if subs != [] {
      var init, last := subs[..|subs| - 1], subs[|subs| - 1];
      assert subs == init + [last];
      assert forall q :: q in init ==> q in subs;
      assert last in subs;
      InsertionsDistinct(init, x);
      var front, back := InsertionsOfAll(init, x), Insertions(last, x, |last| + 1);
      OwnInsertionsDistinct(last, x);
      forall p | p in front
        ensures p !in back
      {
        InAllInsertions(init, x, p);
        var q, i :| q in init && 0 <= i <= |q| && p == Insert(q, i, x);
        if p in back {
          var j :| 0 <= j < |back| && back[j] == p;
          InsertInjective(q, i, last, j, x);
          assert false;
        }
      }
      LastInsertions(subs, x);
      DistinctConcat(front, back);
    }
  }

  lemma OwnInsertionsDistinct(q: seq<Item>, x: Item)
    requires x !in q
    ensures Distinct(Insertions(q, x, |q| + 1))
  {
    var r := Insertions(q, x, |q| + 1);
    forall i, j | 0 <= i < j < |r|
      ensures r[i] != r[j]
    {
      if r[i] == r[j] {
        InsertInjective(q, i, q, j, x);
      }
    }
  }

  lemma {:induction false} PermListDistinct(s: seq<Item>)
    requires Distinct(s)
    ensures Distinct(PermList(s))
    decreases |s|
  {
    if |s| > 1 {
      var x, rest := s[0], s[1..];
      PermListDistinct(rest);
      forall q | q in PermList(rest)
        ensures x !in q
      {
        PermListExact(rest, q);
        assert x in q ==> x in multiset(rest);
        assert x !in rest;
      }
      InsertionsDistinct(PermList(rest), x);
    }
  }
}
