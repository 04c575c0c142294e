/**
 * The distance vector from a grid point to a patch
 * (gridPatch_calcDistanceVector of gridPatch.c).
 *
 * Per axis the result is the signed offset from the point to the nearest
 * cell of the patch's interval [lo, lo + dim - 1]: positive when the point
 * lies below the interval, negative when it lies above.  On a periodic
 * axis of period P the point's image one period away is used instead when
 * it is strictly closer.  The source also returns the Euclidean norm as a
 * double; the model returns its square, the sum of squared components.
 */
module Distance {
  import opened Wrappers

  function Abs(x: int): nat
  {
    if x < 0 then -x else x
  }

  /** The cell of [lo, hi] nearest to q. */
  function Clamp(q: int, lo: int, hi: int): (c: int)
    requires lo <= hi
    ensures lo <= c <= hi
  {
    if q < lo then lo else if q > hi then hi else q
  }

  /** The signed offset from q to the nearest cell of [lo, hi]: the
    * reference definition of the per-axis distance. */
  function Gap(q: int, lo: int, hi: int): int
    requires lo <= hi
  {
    Clamp(q, lo, hi) - q
  }

  /** The image of coordinate p shifted by m periods. */
  function Image(p: int, m: int, period: nat): int
  {
    p + m * period
  }

  /** One axis of gridPatch_calcDistanceVector, branch for branch: the
    * direct distance with its sign flag, then, on a periodic axis, the
    * wrap-around distance in the opposite direction if it is strictly
    * smaller.  The direct and the wrap-around offsets add up to the period
    * less the interval's width, so the result is at most half of that. */
  function AxisDistance(p: nat, lo: nat, dim: nat, period: Option<nat>): (r: int)
    requires dim >= 1
    requires period.Some? ==> p < period.value && lo + dim - 1 < period.value
    ensures period.Some? ==> 2 * Abs(r) <= period.value - (dim - 1)
  {
    var hi := lo + dim - 1;
    var (d, flip) :=
      if p < lo then (lo - p, false)
      else if p >= lo + dim then (p - hi, true)
      else (0, false);
    var (d', flip') :=
      if period.None? then (d, flip)
      else if !flip then
        var tmp := p + period.value - hi;
        if tmp < d then (tmp, true) else (d, flip)
      else
        var tmp := lo + period.value - p;
        if tmp < d then (tmp, false) else (d, flip);
    if flip' then -d' else d'
  }

  /** Without a period the distance is the offset to the nearest cell:
    * zero inside, lo - p below and -(p - hi) above. */
  lemma DirectDistance(p: nat, lo: nat, dim: nat)
    requires dim >= 1
    ensures AxisDistance(p, lo, dim, None) == Gap(p, lo, lo + dim - 1)
    ensures lo <= p < lo + dim ==> AxisDistance(p, lo, dim, None) == 0
    ensures p < lo ==> AxisDistance(p, lo, dim, None) == lo - p
    ensures p >= lo + dim ==> AxisDistance(p, lo, dim, None) == -(p - (lo + dim - 1))
  {
  }

  /** How far image m of p lies from the interval, by which side it is on. */
  lemma ImageGap(p: nat, lo: nat, hi: nat, period: nat, m: int)
    requires lo <= hi < period && p < period
    ensures m >= 1 ==> Abs(Gap(Image(p, m, period), lo, hi)) >= p + period - hi
    ensures m <= -1 ==> Abs(Gap(Image(p, m, period), lo, hi)) >= lo + period - p
    ensures m == 0 ==> Image(p, m, period) == p
  {
    if m >= 1 {
      assert m * period >= period;
    } else if m <= -1 {
      assert m * period <= -(period as int);
    }
  }

  /** With a period the result is the offset to the interval from the
    * point itself or from one of its two neighbouring images, and no
    * image of the point is closer: the minimum-image convention. */
  lemma {:induction false} MinimumImage(p: nat, lo: nat, dim: nat, period: nat)
    requires dim >= 1 && p < period && lo + dim - 1 < period
    ensures
      var r, hi := AxisDistance(p, lo, dim, Some(period)), lo + dim - 1;
      r == Gap(p, lo, hi) || r == Gap(Image(p, 1, period), lo, hi) || r == Gap(Image(p, -1, period), lo, hi)
    ensures
      var r, hi := AxisDistance(p, lo, dim, Some(period)), lo + dim - 1;
      forall m :: Abs(r) <= Abs(Gap(Image(p, m, period), lo, hi))
  {
    var r, hi := AxisDistance(p, lo, dim, Some(period)), lo + dim - 1;
    forall m
      ensures Abs(r) <= Abs(Gap(Image(p, m, period), lo, hi))
    {
      ImageGap(p, lo, hi, period, m);
    }
  }

  /** The wrap-around image replaces the direct distance only when it is
    * strictly closer; on a tie the direct distance is kept. */
  lemma {:induction false} TieKeepsDirect(p: nat, lo: nat, dim: nat, period: nat)
    requires dim >= 1 && p < period && lo + dim - 1 < period
    ensures
      var r, hi := AxisDistance(p, lo, dim, Some(period)), lo + dim - 1;
      (forall m :: Abs(Gap(p, lo, hi)) <= Abs(Gap(Image(p, m, period), lo, hi))) ==> r == Gap(p, lo, hi)
    ensures
      var r, hi := AxisDistance(p, lo, dim, Some(period)), lo + dim - 1;
      r != Gap(p, lo, hi) ==>
        (p < lo && r == Gap(Image(p, 1, period), lo, hi) && Abs(r) < Abs(Gap(p, lo, hi))) ||
        (p > hi && r == Gap(Image(p, -1, period), lo, hi) && Abs(r) < Abs(Gap(p, lo, hi)))
  {
    var hi := lo + dim - 1;
    ImageGap(p, lo, hi, period, 1);
    ImageGap(p, lo, hi, period, -1);
  }

  /** The distance is zero exactly when the point lies in the interval,
    * with or without a period. */
  lemma AxisZero(p: nat, lo: nat, dim: nat, period: Option<nat>)
    requires dim >= 1
    requires period.Some? ==> p < period.value && lo + dim - 1 < period.value
    ensures AxisDistance(p, lo, dim, period) == 0 <==> lo <= p < lo + dim
  {
  }

  // ---------------------------------------------------------------------
  // The test cases of the source, for the interval [3, 7]

  lemma ExamplesDirect()
    ensures AxisDistance(5, 3, 5, None) == 0
    ensures AxisDistance(0, 3, 5, None) == 3
    ensures AxisDistance(8, 3, 5, None) == -1
    ensures AxisDistance(31, 3, 5, None) == -24
  {
  }

  lemma ExamplesPeriodic()
    ensures AxisDistance(31, 3, 5, Some(32)) == 4
    ensures AxisDistance(11, 3, 5, Some(32)) == -4
    ensures AxisDistance(21, 3, 5, Some(32)) == -14
    ensures AxisDistance(1, 3, 5, Some(8)) == 2
    ensures AxisDistance(0, 3, 5, Some(8)) == -1
  {
  }

  // ---------------------------------------------------------------------
  // The vector and its norm

  function Square(x: int): nat
  {
    x * x
  }

  /** The sum of the squared components. */
  function SumSquares(v: seq<int>): nat
  {
    if |v| == 0 then 0 else SumSquares(v[..|v| - 1]) + Square(v[|v| - 1])
  }

  /** The squared norm vanishes exactly on the zero vector. */
  lemma {:induction false} SumSquaresZero(v: seq<int>)
    ensures SumSquares(v) == 0 <==> forall i :: 0 <= i < |v| ==> v[i] == 0
  {
    if |v| > 0 {
      var init, last := v[..|v| - 1], v[|v| - 1];
      SumSquaresZero(init);
      assert forall i :: 0 <= i < |init| ==> init[i] == v[i];
      assert Square(last) == 0 <==> last == 0;
    }
  }

  /** The period of axis i, if the axes are periodic. */
  function PeriodOf(periodic: Option<seq<nat>>, i: nat): Option<nat>
    requires periodic.Some? ==> i < |periodic.value|
  {
    if periodic.None? then None else Some(periodic.value[i])
  }

  /** What gridPatch_calcDistanceVector demands of its arguments. */
  predicate DistanceArgs(point: seq<nat>, lo: seq<nat>, dims: seq<nat>, periodic: Option<seq<nat>>)
  {
    && |point| == |lo| == |dims|
    && (forall i :: 0 <= i < |dims| ==> dims[i] >= 1)
    && (periodic.Some? ==>
          |periodic.value| == |point| &&
          forall i :: 0 <= i < |point| ==> point[i] < periodic.value[i] && lo[i] + dims[i] - 1 < periodic.value[i])
  }

  /** The loop of gridPatch_calcDistanceVector over the axes of a patch
    * with lower corner `lo` and extents `dims`: the distance vector and
    * its squared norm. */
  method DistanceVector(point: seq<nat>, lo: seq<nat>, dims: seq<nat>, periodic: Option<seq<nat>>)
    returns (dist: seq<int>, normSq: nat)
    requires DistanceArgs(point, lo, dims, periodic)
    ensures |dist| == |point|
    ensures forall i :: 0 <= i < |point| ==> dist[i] == AxisDistance(point[i], lo[i], dims[i], PeriodOf(periodic, i))
    ensures normSq == SumSquares(dist)
    ensures normSq == 0 <==> forall i :: 0 <= i < |point| ==> lo[i] <= point[i] < lo[i] + dims[i]
  {
    dist := [];
    normSq := 0;
    var i := 0;
    while i < |point|
      invariant 0 <= i <= |point| && |dist| == i
      invariant forall j :: 0 <= j < i ==> dist[j] == AxisDistance(point[j], lo[j], dims[j], PeriodOf(periodic, j))
      invariant normSq == SumSquares(dist)
    {
      var d := AxisDistance(point[i], lo[i], dims[i], PeriodOf(periodic, i));
      assert (dist + [d])[..i] == dist;
      dist := dist + [d];
      normSq := normSq + Square(d);
      i := i + 1;
    }
    SumSquaresZero(dist);
    forall j | 0 <= j < |point|
      ensures dist[j] == 0 <==> lo[j] <= point[j] < lo[j] + dims[j]
    {
      AxisZero(point[j], lo[j], dims[j], PeriodOf(periodic, j));
    }
  }

  /** Two test cases of the source as whole vectors, for the box [3, 7] on
    * each of three axes: a point inside (norm 0) and a point 3 cells below
    * the box on the first axis. */
  method ExamplesVectorBelow() returns (d0: seq<int>, n0: nat, d1: seq<int>, n1: nat)
    ensures d0 == [0, 0, 0] && n0 == 0
    ensures d1 == [3, 0, 0] && n1 == 9
  {
    var lo, dims := [3, 3, 3], [5, 5, 5];
    ExamplesDirect();
    d0, n0 := DistanceVector([5, 5, 5], lo, dims, None);
    SumSquares3(d0);
    d1, n1 := DistanceVector([0, 5, 5], lo, dims, None);
    SumSquares3(d1);
  }

  /** Two more test cases as whole vectors, for the same box: points 1 and
    * 24 cells above the box on the first axis, with no period. */
  method ExamplesVectorAbove() returns (d2: seq<int>, n2: nat, d3: seq<int>, n3: nat)
    ensures d2 == [-1, 0, 0] && n2 == 1
    ensures d3 == [-24, 0, 0] && n3 == 576
  {
    var lo, dims := [3, 3, 3], [5, 5, 5];
    ExamplesDirect();
    d2, n2 := DistanceVector([8, 5, 5], lo, dims, None);
    SumSquares3(d2);
    d3, n3 := DistanceVector([31, 5, 5], lo, dims, None);
    SumSquares3(d3);
  }

  /** The periodic test case as a whole vector: with period 32 on every
    * axis the point (31, 5, 5) is 4 cells below the box (norm 4). */
  method ExamplesVectorPeriodic() returns (d: seq<int>, n: nat)
    ensures d == [4, 0, 0] && n == 16
  {
    var point, lo, dims, period := [31, 5, 5], [3, 3, 3], [5, 5, 5], [32, 32, 32];
    assert DistanceArgs(point, lo, dims, Some(period)) by {
      assert forall i :: 0 <= i < 3 ==> point[i] < period[i] && lo[i] + dims[i] - 1 < period[i];
    }
    ExamplesPeriodic();
    assert AxisDistance(5, 3, 5, Some(32)) == 0;
    d, n := DistanceVector(point, lo, dims, Some(period));
    SumSquares3(d);
  }

  /** A three-component vector is its three components, and its squared
    * norm is the sum of their squares. */
  lemma SumSquares3(v: seq<int>)
    requires |v| == 3
    ensures v == [v[0], v[1], v[2]]
    ensures SumSquares(v) == Square(v[0]) + Square(v[1]) + Square(v[2])
  {
    var one, two := [v[0]], [v[0], v[1]];
    assert one[..0] == [];
    assert SumSquares(one) == Square(v[0]);
    assert two[..1] == one;
    assert SumSquares(two) == SumSquares(one) + Square(v[1]);
    assert v[..2] == two;
  }
}
