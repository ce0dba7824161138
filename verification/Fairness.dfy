/** Received-byte counters per flow and Jain's fairness index over a group of flows, computed
    in 64-bit arithmetic. */
module Fairness {
  import opened Sums
  import opened Wrappers

  const TWO_32 := 0x1_0000_0000
  const TWO_64 := TWO_32 * TWO_32

  /** The value a 64-bit counter holds for x. */
  function Wrap(x: nat): nat {
    x % TWO_64
  }

  function Square(x: int): nat {
    SquarePositive(x);
    x * x
  }

  lemma SquarePositive(d: int)
    ensures d * d >= 0 && (d * d == 0 <==> d == 0)
  {
  }

  ghost function Total(s: seq<nat>): nat {
    if s == [] then 0 else Total(s[..|s| - 1]) + s[|s| - 1]
  }

  ghost function Squares(s: seq<nat>): nat {
    if s == [] then 0 else Squares(s[..|s| - 1]) + Square(s[|s| - 1])
  }

  ghost predicate AllEqual(s: seq<nat>) {
    forall i, j :: 0 <= i < |s| && 0 <= j < |s| ==> s[i] == s[j]
  }

  ghost predicate AtMostOneActive(s: seq<nat>) {
    forall i, j :: 0 <= i < j < |s| ==> s[i] == 0 || s[j] == 0
  }

  ghost predicate AllZero(s: seq<nat>) {
    forall i :: 0 <= i < |s| ==> s[i] == 0
  }

  /** Every counter is at most a given bound. */
  ghost predicate AtMost(s: seq<nat>, bound: nat) {
    forall i :: 0 <= i < |s| ==> s[i] <= bound
  }

  // ---------- the inequalities behind the index ----------

  /** Sum of the squared distances from x. */
  ghost function Spread(s: seq<nat>, x: nat): nat {
    if s == [] then 0 else Spread(s[..|s| - 1], x) + Square(s[|s| - 1] - x)
  }

  lemma SquareOfSum(a: int, b: int)
    ensures (a + b) * (a + b) == a * a + 2 * (a * b) + b * b
  {
    Distribute(a + b, a, b);
    Distribute(a, a, b);
    Distribute(b, a, b);
  }

  lemma Distribute(a: int, b: int, c: int)
    ensures a * (b + c) == a * b + a * c
  {
  }

  lemma {:induction false} SpreadExpands(s: seq<nat>, x: nat)
    ensures Spread(s, x) == Squares(s) - 2 * (x * Total(s)) + |s| * (x * x)
  {
    if s != [] {
      var init, y := s[..|s| - 1], s[|s| - 1];
      SpreadExpands(init, x);
      SpreadStep(Squares(init), Total(init), |init|, x, y);
    }
  }

  lemma SpreadStep(q: int, t: int, n: int, x: int, y: int)
    ensures q - 2 * (x * t) + n * (x * x) + (y - x) * (y - x)
         == (q + y * y) - 2 * (x * (t + y)) + (n + 1) * (x * x)
  {
    SquareOfSum(y, -x);
    Distribute(x, t, y);
  }

  lemma {:induction false} SpreadZeroIff(s: seq<nat>, x: nat)
    ensures Spread(s, x) == 0 <==> forall i :: 0 <= i < |s| ==> s[i] == x
  {
    if s != [] {
      var init, y := s[..|s| - 1], s[|s| - 1];
      SpreadZeroIff(init, x);
      SquarePositive(y - x);
      assert forall i :: 0 <= i < |init| ==> init[i] == s[i];
    }
  }

  /** One more flow widens the gap of the two sides by its distance from all the others. */
  lemma GapGrows(s: seq<nat>, x: nat)
    ensures (|s| + 1) * (Squares(s) + x * x) - (Total(s) + x) * (Total(s) + x)
         == |s| * Squares(s) - Total(s) * Total(s) + Spread(s, x)
  {
    SpreadExpands(s, x);
    GapStep(|s|, Squares(s), Total(s), x);
  }

  lemma GapStep(n: int, q: int, t: int, x: int)
    ensures (n + 1) * (q + x * x) - (t + x) * (t + x) == n * q - t * t + (q - 2 * (x * t) + n * (x * x))
  {
    SquareOfSum(t, x);
    Distribute(n + 1, q, x * x);
  }

  /** The square of the sum is at most n times the sum of squares, with equality iff all
      flows are equal. */
  lemma {:induction false} CauchySchwarz(s: seq<nat>)
    ensures Total(s) * Total(s) <= |s| * Squares(s)
    ensures Total(s) * Total(s) == |s| * Squares(s) <==> AllEqual(s)
  {
    if s != [] {
      var init, x := s[..|s| - 1], s[|s| - 1];
      CauchySchwarz(init);
      GapGrows(init, x);
      SpreadZeroIff(init, x);
      EqualSnoc(s);
    }
  }

  lemma EqualSnoc(s: seq<nat>)
    requires s != []
    ensures var init := s[..|s| - 1];
      AllEqual(s) <==> AllEqual(init) && forall i :: 0 <= i < |init| ==> init[i] == s[|s| - 1]
  {
    var init := s[..|s| - 1];
    assert forall i :: 0 <= i < |init| ==> init[i] == s[i];
  }

  /** The sum of squares is at most the square of the sum, with equality iff at most one flow
      received anything. */
  lemma {:induction false} SquaresBelow(s: seq<nat>)
    ensures Squares(s) <= Total(s) * Total(s)
    ensures Squares(s) == Total(s) * Total(s) <==> AtMostOneActive(s)
  {
    if s != [] {
      var init, x := s[..|s| - 1], s[|s| - 1];
      var t := Total(init);
      SquaresBelow(init);
      TotalZeroIff(init);
      ProductZeroIff(t, x);
      SquareOfSum(t, x);
      ActiveSnoc(s);
    }
  }

  lemma ProductZeroIff(a: nat, b: nat)
    ensures a * b >= 0 && (a * b == 0 <==> a == 0 || b == 0)
  {
    if a > 0 && b > 0 {
      assert a * b >= b;
    }
  }

  lemma ActiveSnoc(s: seq<nat>)
    requires s != []
    ensures var init := s[..|s| - 1];
      AtMostOneActive(s) <==> AtMostOneActive(init) && (AllZero(init) || s[|s| - 1] == 0)
  {
    var init := s[..|s| - 1];
    assert forall i :: 0 <= i < |init| ==> init[i] == s[i];
  }

  lemma {:induction false} TotalZeroIff(s: seq<nat>)
    ensures Total(s) == 0 <==> AllZero(s)
  {
    if s != [] {
      TotalZeroIff(s[..|s| - 1]);
      assert forall i :: 0 <= i < |s| - 1 ==> s[..|s| - 1][i] == s[i];
    }
  }

  // ---------- no product wraps ----------

  lemma {:induction false} BoundedSums(s: seq<nat>, bound: nat)
    requires AtMost(s, bound)
    ensures Total(s) <= |s| * bound && Squares(s) <= |s| * (bound * bound)
  {
    if s != [] {
      var init, x := s[..|s| - 1], s[|s| - 1];
      assert forall i :: 0 <= i < |init| ==> init[i] == s[i];
      BoundedSums(init, bound);
      MultiplyBounds(x, bound, x, bound);
      assert |s| * bound == |init| * bound + bound;
      assert |s| * (bound * bound) == |init| * (bound * bound) + bound * bound;
    }
  }

  lemma MultiplyBounds(a: nat, x: nat, b: nat, y: nat)
    requires a <= x && b <= y
    ensures a * b <= x * y
  {
    assert a * b <= x * b && x * b <= x * y;
  }

  /** What keeps every sum and product of a group of n flows inside 64 bits. */
  ghost predicate Fits(s: seq<nat>) {
    && Total(s) < TWO_64 && Squares(s) < TWO_64
    && Total(s) * Total(s) < TWO_64 && |s| * Squares(s) < TWO_64
  }

  lemma NothingWraps(s: seq<nat>)
    requires s != [] && AtMost(s, (TWO_32 - 1) / |s|)
    ensures Fits(s)
  {
    var n, bound := |s|, (TWO_32 - 1) / |s|;
    BoundedSums(s, bound);
    SquaresBelow(s);
    hide Total, Squares, AtMost, AtMostOneActive;
    QuotientBound(TWO_32 - 1, n);
    ProductsFit(n, bound, Total(s), Squares(s));
  }

  lemma QuotientBound(a: nat, n: nat)
    requires n > 0
    ensures n * (a / n) <= a < n * (a / n + 1)
  {
  }

  lemma ProductsFit(n: nat, bound: nat, t: nat, q: nat)
    requires n > 0 && n * bound < TWO_32 && t <= n * bound && q <= n * (bound * bound) && q <= t * t
    ensures t < TWO_64 && q < TWO_64 && t * t < TWO_64 && n * q < TWO_64
  {
    var limit := n * bound;
    MultiplyBounds(limit, TWO_32 - 1, limit, TWO_32 - 1);
    MultiplyBounds(t, limit, t, limit);
    MultiplyBounds(n, n, q, n * (bound * bound));
    Regroup(n, bound);
  }

  lemma Regroup(n: nat, b: nat)
    ensures n * (n * (b * b)) == (n * b) * (n * b)
  {
    var c := n * b;
    assert n * (b * b) == c * b;
    assert n * (c * b) == c * (n * b);
  }

  /** For any flows, everything fits iff the denominator does. */
  lemma FitsIff(s: seq<nat>)
    requires s != []
    ensures Fits(s) <==> |s| * Squares(s) < TWO_64
  {
    CauchySchwarz(s);
    SquaresBelow(s);
    hide Total, Squares, AllEqual, AtMostOneActive;
    if |s| * Squares(s) < TWO_64 {
      MultiplyBounds(1, |s|, Squares(s), Squares(s));
      SquareAtLeast(Total(s));
    }
  }

  lemma SquareAtLeast(t: nat)
    ensures t <= t * t
  {
    if t > 0 {
      MultiplyBounds(1, t, t, t);
    }
  }

  /** For equal flows the bound is exact: past it the square of the sum no longer fits. */
  lemma EqualFlowsFitIff(s: seq<nat>)
    requires s != [] && AllEqual(s)
    ensures Fits(s) <==> AtMost(s, (TWO_32 - 1) / |s|)
  {
    if AtMost(s, (TWO_32 - 1) / |s|) {
      NothingWraps(s);
    } else {
      EqualTotal(s, s[0]);
      var n, c := |s|, s[0];
      assert c >= (TWO_32 - 1) / n + 1;
      MultiplyBounds(n, n, (TWO_32 - 1) / n + 1, c);
      QuotientBound(TWO_32 - 1, n);
      MultiplyBounds(TWO_32, Total(s), TWO_32, Total(s));
    }
  }

  lemma {:induction false} EqualTotal(s: seq<nat>, c: nat)
    requires forall i :: 0 <= i < |s| ==> s[i] == c
    ensures Total(s) == |s| * c
  {
    if s != [] {
      EqualTotal(s[..|s| - 1], c);
    }
  }

  // ---------- the index ----------

  ghost function JainIndex(s: seq<nat>): real
    requires |s| * Squares(s) > 0
  {
    (Total(s) * Total(s)) as real / (|s| * Squares(s)) as real
  }

  lemma {:induction false} DefinedIff(s: seq<nat>)
    ensures |s| * Squares(s) > 0 <==> !AllZero(s)
  {
    SquaresBelow(s);
    TotalZeroIff(s);
    CauchySchwarz(s);
    ProductZeroIff(Total(s), Total(s));
    ProductZeroIff(|s|, Squares(s));
  }

  lemma Scale(x: real, y: real, q: real)
    requires q > 0.0
    ensures x <= y <==> x * q <= y * q
    ensures x == y <==> x * q == y * q
  {
    if x < y {
      assert (y - x) * q > 0.0;
    } else if y < x {
      assert (x - y) * q > 0.0;
    }
  }

  lemma RatioAgainstOne(p: nat, q: nat)
    requires q > 0
    ensures var x := p as real / q as real;
      (x <= 1.0 <==> p <= q) && (x == 1.0 <==> p == q)
  {
    Scale(p as real / q as real, 1.0, q as real);
  }

  lemma RatioAgainstUnit(p: nat, k: nat, n: nat)
    requires n * k > 0 && n > 0
    ensures var x := p as real / (n * k) as real;
      (1.0 / n as real <= x <==> k <= p) && (x == 1.0 / n as real <==> p == k)
  {
    var q := n * k;
    var unit := 1.0 / n as real;
    assert unit * q as real == k as real by {
      assert q as real == n as real * k as real;
      assert unit * n as real == 1.0;
      assert unit * (n as real * k as real) == (unit * n as real) * k as real;
    }
    Scale(unit, p as real / q as real, q as real);
  }

  /** Unless every flow is idle the index lies between 1/n and 1; it is 1 iff all flows are
      equal, and 1/n iff a single flow received everything. */
  lemma JainBounds(s: seq<nat>)
    requires !AllZero(s)
    ensures |s| * Squares(s) > 0 && |s| > 0
    ensures 1.0 / |s| as real <= JainIndex(s) <= 1.0
    ensures JainIndex(s) == 1.0 <==> AllEqual(s)
    ensures JainIndex(s) == 1.0 / |s| as real <==> AtMostOneActive(s)
  {
    DefinedIff(s);
    CauchySchwarz(s);
    SquaresBelow(s);
    hide Total, Squares, AllEqual, AtMostOneActive, AllZero;
    RatioAgainstOne(Total(s) * Total(s), |s| * Squares(s));
    RatioAgainstUnit(Total(s) * Total(s), Squares(s), |s|);
  }

  // ---------- the counters ----------

  /** The flow and size of every packet received. */
  datatype Arrival = Arrival(flow: nat, size: nat)

  ghost function BytesOf(arrivals: seq<Arrival>, flow: nat): nat {
    if arrivals == [] then 0
    else
      var last := arrivals[|arrivals| - 1];
      BytesOf(arrivals[..|arrivals| - 1], flow) + if last.flow == flow then last.size else 0
  }

  ghost function SizeFor(flow: nat): Arrival -> nat {
    (a: Arrival) => if a.flow == flow then a.size else 0
  }

  ghost function SizeBelow(flows: nat): Arrival -> nat {
    (a: Arrival) => if a.flow < flows then a.size else 0
  }

  /** A flow's bytes are the sizes of its own arrivals. */
  lemma {:induction false} BytesAreSums(arrivals: seq<Arrival>, flow: nat)
    ensures BytesOf(arrivals, flow) == Sum(arrivals, SizeFor(flow))
  {
    if arrivals != [] {
      BytesAreSums(arrivals[..|arrivals| - 1], flow);
    }
  }

  ghost function BytesOfAll(arrivals: seq<Arrival>, flows: nat): seq<nat> {
    if flows == 0 then [] else BytesOfAll(arrivals, flows - 1) + [BytesOf(arrivals, flows - 1)]
  }

  /** Over all flows together no byte is lost or counted twice. */
  lemma {:induction false} BytesConserved(arrivals: seq<Arrival>, flows: nat)
    ensures Total(BytesOfAll(arrivals, flows)) == Sum(arrivals, SizeBelow(flows))
  {
    if flows == 0 {
      SumZeroIff(arrivals, SizeBelow(0));
    } else {
      var before := BytesOfAll(arrivals, flows - 1);
      assert BytesOfAll(arrivals, flows)[..|before|] == before;
      BytesConserved(arrivals, flows - 1);
      BytesAreSums(arrivals, flows - 1);
      hide BytesOf, Sum;
      SumOfTwo(arrivals, SizeBelow(flows - 1), SizeFor(flows - 1), SizeBelow(flows));
    }
  }

  class Counters {
    const rxBytes: array<nat>
    /** The packets received since the counters were last cleared. */
    ghost var arrivals: seq<Arrival>

    ghost predicate Valid()
      reads this, rxBytes
    {
      forall i :: 0 <= i < rxBytes.Length ==> rxBytes[i] == Wrap(BytesOf(arrivals, i))
    }

    constructor (flows: nat)
      ensures Valid() && fresh(rxBytes) && rxBytes.Length == flows && arrivals == []
    {
      rxBytes := new nat[flows](i => 0);
      arrivals := [];
    }

    method InitializeCounters()
      modifies this, rxBytes
      ensures Valid() && arrivals == []
    {
      arrivals := [];
      for i := 0 to rxBytes.Length
        invariant arrivals == [] && forall j :: 0 <= j < i ==> rxBytes[j] == 0
      {
        rxBytes[i] := 0;
      }
    }

    /** A packet adds its size to its own flow's counter and to no other. */
    method TraceSink(index: nat, size: nat)
      requires Valid() && index < rxBytes.Length
      modifies this, rxBytes
      ensures Valid() && arrivals == old(arrivals) + [Arrival(index, size)]
    {
      rxBytes[index] := Wrap(rxBytes[index] + size);
      arrivals := arrivals + [Arrival(index, size)];
      ghost var was := old(arrivals);
      assert arrivals[..|was|] == was;
      AddWraps(BytesOf(was, index), size);
    }

    /** One group's index; no value when the denominator comes out as zero. While nothing wraps
        that happens iff every flow was idle, and otherwise it is Jain's index. */
    method PrintFairness() returns (index: Option<real>)
      ensures Fits(rxBytes[..]) ==> (index == None <==> AllZero(rxBytes[..]))
      ensures Fits(rxBytes[..]) && !AllZero(rxBytes[..]) ==>
        |rxBytes[..]| * Squares(rxBytes[..]) > 0 && index.value == JainIndex(rxBytes[..])
    {
      var sum, sumSquares := 0, 0;
      for i := 0 to rxBytes.Length
        invariant sum == Wrap(Total(rxBytes[..i])) && sumSquares == Wrap(Squares(rxBytes[..i]))
      {
        assert rxBytes[..i + 1][..i] == rxBytes[..i];
        AddFlow(rxBytes[..i + 1], sum, sumSquares);
        var bytes := rxBytes[i];
        sum := Wrap(sum + bytes);
        sumSquares := Wrap(sumSquares + Wrap(Square(bytes)));
      }
      assert rxBytes[..rxBytes.Length] == rxBytes[..];
      Unwrapped(rxBytes[..], sum, sumSquares);
      DefinedIff(rxBytes[..]);
      hide Fits, Total, Squares, Wrap, Square;
      var numerator, denominator := Wrap(sum * sum), Wrap(rxBytes.Length * sumSquares);
      if denominator == 0 {
        return None;
      }
      return Some(numerator as real / denominator as real);
    }
  }

  /** One step of the accumulation in wrapping arithmetic. */
  lemma AddFlow(s: seq<nat>, sum: nat, sumSquares: nat)
    requires s != []
    requires sum == Wrap(Total(s[..|s| - 1])) && sumSquares == Wrap(Squares(s[..|s| - 1]))
    ensures var x := s[|s| - 1];
      Wrap(sum + x) == Wrap(Total(s)) && Wrap(sumSquares + Wrap(Square(x))) == Wrap(Squares(s))
  {
    var init, x := s[..|s| - 1], s[|s| - 1];
    var total, squares, square := Total(init), Squares(init), Square(x);
    assert Total(s) == total + x && Squares(s) == squares + square;
    assert sum == Wrap(total) && sumSquares == Wrap(squares);
    hide *;
    AddWraps(total, x);
    AddWrapped(squares, square);
  }

  /** When everything fits, the wrapped products are the true ones. */
  lemma Unwrapped(s: seq<nat>, sum: nat, sumSquares: nat)
    requires sum == Wrap(Total(s)) && sumSquares == Wrap(Squares(s))
    ensures Fits(s) ==>
      Wrap(sum * sum) == Total(s) * Total(s) && Wrap(|s| * sumSquares) == |s| * Squares(s)
  {
    if Fits(s) {
      hide Total, Squares, Wrap;
      WrapSmall(Total(s));
      WrapSmall(Squares(s));
      WrapSmall(sum * sum);
      WrapSmall(|s| * sumSquares);
    }
  }

  lemma WrapSmall(x: nat)
    ensures x < TWO_64 ==> Wrap(x) == x
  {
  }

  lemma AddWraps(a: nat, b: nat)
    ensures Wrap(Wrap(a) + b) == Wrap(a + b)
  {
    var q := a / TWO_64;
    assert a + b == (a % TWO_64 + b) + q * TWO_64;
    DropMultiples(a % TWO_64 + b, q);
  }

  lemma AddWrapped(a: nat, b: nat)
    ensures Wrap(Wrap(a) + Wrap(b)) == Wrap(a + b)
  {
    AddWraps(a, Wrap(b));
    AddWraps(b, a);
  }

  lemma {:induction false} DropMultiples(x: nat, q: nat)
    ensures Wrap(x + q * TWO_64) == Wrap(x)
    decreases q
  {
    if q > 0 {
      DropMultiples(x, q - 1);
      var y := x + (q - 1) * TWO_64;
      assert (y + TWO_64) % TWO_64 == y % TWO_64;
    }
  }
}
