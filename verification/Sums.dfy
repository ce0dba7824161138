/** Sums over lists, and what rearranging a list does not change. */
module Sums {

  ghost function Sum<T(!new)>(s: seq<T>, f: T -> nat): nat {
    if s == [] then 0 else Sum(s[..|s| - 1], f) + f(s[|s| - 1])
  }

  lemma SumSnoc<T(!new)>(s: seq<T>, x: T, f: T -> nat)
    ensures Sum(s + [x], f) == Sum(s, f) + f(x)
  {
    assert (s + [x])[..|s|] == s;
  }

  lemma {:induction false} SumAppend<T(!new)>(s: seq<T>, t: seq<T>, f: T -> nat)
    ensures Sum(s + t, f) == Sum(s, f) + Sum(t, f)
  {
    if t == [] {
      assert s + t == s;
    } else {
      var init, x := t[..|t| - 1], t[|t| - 1];
      SumAppend(s, init, f);
      assert s + t == (s + init) + [x] && t == init + [x];
      SumSnoc(s + init, x, f);
    }
  }

  lemma SplitAt<T>(s: seq<T>, k: nat)
    requires k < |s|
    ensures s == (s[..k] + [s[k]]) + s[k + 1..]
  {
  }

  lemma SumTakeOut<T(!new)>(s: seq<T>, k: nat, f: T -> nat)
    requires k < |s|
    ensures Sum(s, f) == Sum(s[..k] + s[k + 1..], f) + f(s[k])
  {
    hide *;
    var before, after := s[..k], s[k + 1..];
    SplitAt(s, k);
    SumAppend(before + [s[k]], after, f);
    SumSnoc(before, s[k], f);
    SumAppend(before, after, f);
  }

  /** Replacing one entry moves the sum by the difference of the two. */
  lemma SumUpdate<T(!new)>(s: seq<T>, k: nat, x: T, f: T -> nat)
    requires k < |s|
    ensures Sum(s[k := x], f) + f(s[k]) == Sum(s, f) + f(x)
  {
    SumTakeOut(s, k, f);
    SumTakeOut(s[k := x], k, f);
    assert s[k := x][..k] + s[k := x][k + 1..] == s[..k] + s[k + 1..];
  }

  lemma SumPopFirst<T(!new)>(s: seq<T>, f: T -> nat)
    requires s != []
    ensures Sum(s, f) == f(s[0]) + Sum(s[1..], f)
  {
    SumTakeOut(s, 0, f);
    assert s[..0] + s[1..] == s[1..];
  }

  lemma {:induction false} SumZeroIff<T(!new)>(s: seq<T>, f: T -> nat)
    ensures Sum(s, f) == 0 <==> forall x :: x in s ==> f(x) == 0
  {
    if s != [] {
      var init, x := s[..|s| - 1], s[|s| - 1];
      assert s == init + [x];
      SumZeroIff(init, f);
    }
  }

  lemma {:induction false} SumAtMostLength<T(!new)>(s: seq<T>, f: T -> nat)
    requires forall x :: f(x) <= 1
    ensures Sum(s, f) <= |s|
    ensures Sum(s, f) == |s| <==> forall x :: x in s ==> f(x) == 1
  {
    if s != [] {
      var init, x := s[..|s| - 1], s[|s| - 1];
      assert s == init + [x];
      SumAtMostLength(init, f);
    }
  }

  lemma {:induction false} SumOfRearranged<T(!new)>(s: seq<T>, t: seq<T>, f: T -> nat)
    requires multiset(s) == multiset(t)
    ensures Sum(s, f) == Sum(t, f)
    decreases |s|
  {
    if s == [] {
      assert |multiset(t)| == |t|;
      assert |multiset(s)| == 0;
    } else {
      var init, x := s[..|s| - 1], s[|s| - 1];
      assert s == init + [x];
      assert x in multiset(t);
      var k :| 0 <= k < |t| && t[k] == x;
      WithoutOne(t, k);
      SumOfRearranged(init, t[..k] + t[k + 1..], f);
      SumTakeOut(t, k, f);
    }
  }

  lemma WithoutOne<T>(t: seq<T>, k: nat)
    requires k < |t|
    ensures multiset(t[..k] + t[k + 1..]) == multiset(t) - multiset{t[k]}
  {
    assert t == t[..k] + [t[k]] + t[k + 1..];
  }

  lemma {:induction false} SumOfTwo<T(!new)>(s: seq<T>, f: T -> nat, g: T -> nat, h: T -> nat)
    requires forall x :: x in s ==> h(x) == f(x) + g(x)
    ensures Sum(s, h) == Sum(s, f) + Sum(s, g)
  {
    if s != [] {
      var init, x := s[..|s| - 1], s[|s| - 1];
      assert s == init + [x];
      SumOfTwo(init, f, g, h);
    }
  }

  lemma {:induction false} SumSame<T(!new)>(s: seq<T>, f: T -> nat, g: T -> nat)
    requires forall x :: x in s ==> f(x) == g(x)
    ensures Sum(s, f) == Sum(s, g)
  {
    if s != [] {
      var init, x := s[..|s| - 1], s[|s| - 1];
      assert s == init + [x];
      SumSame(init, f, g);
    }
  }

  ghost function Same<T(!new)>(x: T): T -> nat {
    y => if y == x then 1 else 0
  }

  lemma {:induction false} MultiplicityIsSum<T(!new)>(s: seq<T>, x: T)
    ensures multiset(s)[x] == Sum(s, Same(x))
  {
    if s != [] {
      var init, last := s[..|s| - 1], s[|s| - 1];
      assert s == init + [last];
      MultiplicityIsSum(init, x);
    }
  }

  lemma {:induction false} SumMonotone<T(!new)>(s: seq<T>, f: T -> nat, g: T -> nat)
    requires forall x :: x in s ==> f(x) <= g(x)
    ensures Sum(s, f) <= Sum(s, g)
    ensures Sum(s, f) == Sum(s, g) ==> forall x :: x in s ==> f(x) == g(x)
  {
    if s != [] {
      var init, x := s[..|s| - 1], s[|s| - 1];
      assert s == init + [x];
      SumMonotone(init, f, g);
    }
  }
}
