/** Optional values: an empty buffer slot, an absent period. */
module Wrappers {
  datatype Option<+T> = None | Some(value: T)
}

/**
 * Index arithmetic of a patch: extents, cell counts, the row-major layout
 * (axis 0 varies fastest) and the FFTW padding rule of gridPatch.c.
 * A point or an extent is a sequence with one entry per axis.
 */
module Geometry {

  /** Number of cells of a box with extents `d`. */
  function Product(d: seq<nat>): nat
  {
    if |d| == 0 then 1 else d[0] * Product(d[1..])
  }

  /** `k` lies in the box [0, d) on every axis. */
  predicate InBox(k: seq<nat>, d: seq<nat>)
  {
    |k| == |d| && forall i :: 0 <= i < |k| ==> k[i] < d[i]
  }

  /** Every extent is at least one, as `hi - lo + 1` is for `lo <= hi`. */
  predicate Positive(d: seq<nat>)
  {
    forall i :: 0 <= i < |d| ==> d[i] >= 1
  }

  /** Row-major linear offset of coordinates `k` in a box of extents `d`:
    * k[0] + d[0]*(k[1] + d[1]*(k[2] + ...)). */
  function Offset(k: seq<nat>, d: seq<nat>): nat
    requires |k| == |d|
  {
    if |k| == 0 then 0 else k[0] + d[0] * Offset(k[1..], d[1..])
  }

  /** The two entries `a` and `b` of `s` exchanged. */
  function Swap<X>(s: seq<X>, a: nat, b: nat): seq<X>
    requires a < |s| && b < |s|
  {
    s[a := s[b]][b := s[a]]
  }

  /** Per-axis sum, used to move window coordinates into patch coordinates. */
  function Add(x: seq<nat>, y: seq<nat>): (r: seq<nat>)
    requires |x| == |y|
    ensures |r| == |x| && forall i :: 0 <= i < |x| ==> r[i] == x[i] + y[i]
  {
    seq(|x|, i requires 0 <= i < |x| => x[i] + y[i])
  }

  /** Per-axis difference `x - y` where `y <= x`. */
  function Sub(x: seq<nat>, y: seq<nat>): (r: seq<nat>)
    requires |x| == |y| && forall i :: 0 <= i < |x| ==> y[i] <= x[i]
    ensures |r| == |x| && forall i :: 0 <= i < |x| ==> r[i] + y[i] == x[i]
  {
    seq(|x|, i requires 0 <= i < |x| => x[i] - y[i])
  }

  // ---------------------------------------------------------------------
  // Arithmetic helpers

  lemma MulMonotone(a: nat, x: nat, y: nat)
    requires x <= y
    ensures a * x <= a * y
  {
    var z := y - x;
    assert a * y == a * x + a * z;
  }

  lemma DivBelow(o: nat, d: nat, p: nat)
    requires d > 0 && o < d * p
    ensures o / d < p
  {
    if o / d >= p {
      MulMonotone(d, p, o / d);
    }
  }

  lemma DivModOfSum(r: nat, q: nat, d: nat)
    requires r < d
    ensures (r + d * q) / d == q && (r + d * q) % d == r
  {
    var x := r + d * q;
    var q', r' := x / d, x % d;
    assert x == d * q' + r' && 0 <= r' < d;
    if q' < q {
      MulMonotone(d, q' + 1, q);
      assert false;
    } else if q' > q {
      MulMonotone(d, q + 1, q');
      assert false;
    }
  }

  // ---------------------------------------------------------------------
  // Products

  lemma {:induction false} ProductAppend(d: seq<nat>, x: nat)
    ensures Product(d + [x]) == Product(d) * x
  {
    if |d| == 0 {
      assert d + [x] == [x];
    } else {
      assert (d + [x])[1..] == d[1..] + [x];
      ProductAppend(d[1..], x);
    }
  }

  lemma {:induction false} ProductConcat(s: seq<nat>, t: seq<nat>)
    ensures Product(s + t) == Product(s) * Product(t)
  {
    if |s| == 0 {
      assert s + t == t;
    } else {
      assert (s + t)[1..] == s[1..] + t;
      ProductConcat(s[1..], t);
    }
  }

  /** A box with positive extents has at least one cell. */
  lemma {:induction false} ProductPositive(d: seq<nat>)
    requires Positive(d)
    ensures Product(d) >= 1
  {
    if |d| > 0 {
      ProductPositive(d[1..]);
      MulMonotone(d[0], 1, Product(d[1..]));
    }
  }

  lemma {:induction false} ProductOfFive(p1: seq<nat>, x: nat, p2: seq<nat>, y: nat, p3: seq<nat>)
    ensures Product(p1 + [x] + p2 + [y] + p3)
         == Product(p1) * (x * (Product(p2) * (y * Product(p3))))
  {
    assert p1 + [x] + p2 + [y] + p3 == p1 + ([x] + (p2 + ([y] + p3)));
    ProductConcat(p1, [x] + (p2 + ([y] + p3)));
    ProductConcat(p2, [y] + p3);
    assert ([x] + (p2 + ([y] + p3)))[1..] == p2 + ([y] + p3);
    assert ([y] + p3)[1..] == p3;
  }

  lemma MulExchange(q1: nat, x: nat, q2: nat, y: nat, q3: nat)
    ensures q1 * (x * (q2 * (y * q3))) == q1 * (y * (q2 * (x * q3)))
  {
    assert x * (q2 * (y * q3)) == (x * y) * (q2 * q3);
    assert y * (q2 * (x * q3)) == (y * x) * (q2 * q3);
  }

  lemma SwapSplit(d: seq<nat>, i: nat, j: nat)
    requires i < j < |d|
    ensures d == d[..i] + [d[i]] + d[i + 1..j] + [d[j]] + d[j + 1..]
    ensures Swap(d, i, j) == d[..i] + [d[j]] + d[i + 1..j] + [d[i]] + d[j + 1..]
    ensures Swap(d, j, i) == Swap(d, i, j)
  {
  }

  lemma {:induction false} ProductSwapOrdered(d: seq<nat>, i: nat, j: nat)
    requires i < j < |d|
    ensures Product(Swap(d, i, j)) == Product(d)
  {
    var p1, p2, p3 := d[..i], d[i + 1..j], d[j + 1..];
    var x, y := d[i], d[j];
    SwapSplit(d, i, j);
    ProductOfFive(p1, x, p2, y, p3);
    ProductOfFive(p1, y, p2, x, p3);
    MulExchange(Product(p1), x, Product(p2), y, Product(p3));
  }

  /** Exchanging two extents does not change the number of cells. */
  lemma {:induction false} ProductSwap(d: seq<nat>, a: nat, b: nat)
    requires a < |d| && b < |d|
    ensures Product(Swap(d, a, b)) == Product(d)
  {
    if a < b {
      ProductSwapOrdered(d, a, b);
    } else if b < a {
      SwapSplit(d, b, a);
      ProductSwapOrdered(d, b, a);
    } else {
      assert Swap(d, a, b) == d;
    }
  }

  // ---------------------------------------------------------------------
  // Row-major layout

  /** Every in-box point has an offset inside the buffer of the box. */
  lemma {:induction false} OffsetBound(k: seq<nat>, d: seq<nat>)
    requires InBox(k, d)
    ensures Offset(k, d) < Product(d)
  {
    if |k| > 0 {
      assert InBox(k[1..], d[1..]);
      OffsetBound(k[1..], d[1..]);
      MulMonotone(d[0], Offset(k[1..], d[1..]) + 1, Product(d[1..]));
    }
  }

  /** The coordinates of linear offset `o`: the inverse of Offset. */
  function Coords(o: nat, d: seq<nat>): (k: seq<nat>)
    requires o < Product(d)
    ensures InBox(k, d) && Offset(k, d) == o
    decreases |d|
  {
    if |d| == 0 then []
    else
      DivBelow(o, d[0], Product(d[1..]));
      var rest := Coords(o / d[0], d[1..]);
      var k := [o % d[0]] + rest;
      assert k[1..] == rest;
      k
  }

  /** Offset is injective on the box: Coords recovers the coordinates. */
  lemma {:induction false} CoordsOfOffset(k: seq<nat>, d: seq<nat>)
    requires InBox(k, d)
    ensures Offset(k, d) < Product(d) && Coords(Offset(k, d), d) == k
  {
    OffsetBound(k, d);
    if |k| > 0 {
      assert InBox(k[1..], d[1..]);
      CoordsOfOffset(k[1..], d[1..]);
      DivModOfSum(k[0], Offset(k[1..], d[1..]), d[0]);
    }
  }

  lemma {:induction false} OffsetInjective(k1: seq<nat>, k2: seq<nat>, d: seq<nat>)
    requires InBox(k1, d) && InBox(k2, d) && Offset(k1, d) == Offset(k2, d)
    ensures k1 == k2
  {
    CoordsOfOffset(k1, d);
    CoordsOfOffset(k2, d);
  }

  /** Moving `c` places along axis 0 moves the offset by `c`. */
  lemma OffsetAlongRow(k: seq<nat>, d: seq<nat>, c: nat)
    requires |k| == |d| > 0
    ensures Offset(k[0 := k[0] + c], d) == Offset(k, d) + c
  {
    assert k[0 := k[0] + c][1..] == k[1..];
  }

  /** `t'` is `t` with its run [at, at + n) overwritten by the run
    * [start, start + n) of `from`: the effect of a memcpy. */
  ghost predicate IsSplice<T>(t': seq<T>, t: seq<T>, at: nat, from: seq<T>, start: nat, n: nat)
  {
    && |t'| == |t| && at + n <= |t| && start + n <= |from|
    && (forall i :: 0 <= i < |t| && !(at <= i < at + n) ==> t'[i] == t[i])
    && (forall i :: at <= i < at + n ==> t'[i] == from[start + (i - at)])
  }

  /** The offset formula of a two-axis buffer, as the 2-D loops write it. */
  lemma Offset2(k0: nat, k1: nat, d0: nat, d1: nat)
    ensures Offset([k0, k1], [d0, d1]) == k0 + k1 * d0
  {
    assert [k0, k1][1..] == [k1] && [d0, d1][1..] == [d1];
    assert [k1][1..] == [] && [d1][1..] == [];
    assert Offset([k1], [d1]) == k1 + d1 * Offset([], []);
  }

  /** The offset formula of a three-axis buffer, as the 3-D loops write it. */
  lemma Offset3(k0: nat, k1: nat, k2: nat, d0: nat, d1: nat, d2: nat)
    ensures Offset([k0, k1, k2], [d0, d1, d2]) == k0 + (k1 + k2 * d1) * d0
  {
    assert [k0, k1, k2][1..] == [k1, k2] && [d0, d1, d2][1..] == [d1, d2];
    Offset2(k1, k2, d1, d2);
  }

  lemma Product2(d0: nat, d1: nat)
    ensures Product([d0, d1]) == d0 * d1
  {
    assert [d0, d1][1..] == [d1] && [d1][1..] == [];
    assert Product([d1]) == d1 * Product([]);
  }

  lemma Product3(d0: nat, d1: nat, d2: nat)
    ensures Product([d0, d1, d2]) == d0 * d1 * d2
  {
    assert [d0, d1, d2][1..] == [d1, d2];
    Product2(d1, d2);
  }

  /** The cell count of a two-axis buffer as its nested loops count it,
    * outer axis first. */
  lemma {:induction false} CellCount2(d: seq<nat>)
    requires |d| == 2
    ensures d[1] * d[0] == Product(d)
  {
    assert d == [d[0], d[1]];
    Product2(d[0], d[1]);
  }

  /** The cell count of a three-axis buffer as its nested loops count it. */
  lemma {:induction false} CellCount3(d: seq<nat>)
    requires |d| == 3
    ensures (d[2] * d[1]) * d[0] == Product(d)
  {
    assert d == [d[0], d[1], d[2]];
    Product3(d[0], d[1], d[2]);
  }

  /** A memcpy of `n` elements: `from[start..start + n]` overwrites the
    * run of `a` that begins at `at`. */
  method CopyRun<T>(a: array<T>, at: nat, from: seq<T>, start: nat, n: nat)
    modifies a
    requires at + n <= a.Length && start + n <= |from|
    ensures IsSplice(a[..], old(a[..]), at, from, start, n)
  {
    forall j | at <= j < at + n {
      a[j] := from[start + (j - at)];
    }
  }

  /** Exchanging two coordinates maps the box onto the box with the two
    * extents exchanged. */
  lemma SwapInBox(k: seq<nat>, d: seq<nat>, a: nat, b: nat)
    requires a < |d| && b < |d| && InBox(k, Swap(d, a, b))
    ensures InBox(Swap(k, a, b), d)
  {
  }

  // ---------------------------------------------------------------------
  // FFTW padding (gridPatch_getDimActual1D)

  /** Stored extent of `axis` for a variable: an in-place real-to-complex
    * transform needs 2*(n/2+1) slots on the fastest axis. */
  function ActualDim(dims: seq<nat>, padded: bool, axis: nat): nat
    requires axis < |dims|
  {
    if padded && axis == 0 then 2 * (dims[0] / 2 + 1) else dims[axis]
  }

  /** All stored extents (gridPatch_getDimsActual). */
  function ActualDims(dims: seq<nat>, padded: bool): (r: seq<nat>)
    ensures |r| == |dims|
  {
    seq(|dims|, i requires 0 <= i < |dims| => ActualDim(dims, padded, i))
  }

  /** The padding rule: only axis 0 of a padded variable grows, to the
    * smallest even extent strictly above the logical one. */
  lemma PaddingRule(dims: seq<nat>, padded: bool)
    ensures forall i :: 0 <= i < |dims| && (i != 0 || !padded) ==> ActualDims(dims, padded)[i] == dims[i]
    ensures padded && |dims| > 0 ==>
      var e := ActualDims(dims, padded)[0];
      e % 2 == 0 && dims[0] < e <= dims[0] + 2
  {
  }

  /** A padded variable on a 5 x 5 x 5 patch stores 6 x 5 x 5 cells. */
  lemma PaddingExample()
    ensures ActualDims([5, 5, 5], true) == [6, 5, 5]
    ensures Product(ActualDims([5, 5, 5], true)) == 150
  {
    assert ActualDims([5, 5, 5], true) == [6, 5, 5];
    Product3(6, 5, 5);
  }

  /** Cell count with padding: equal to the logical count for an unpadded
    * variable, strictly larger for a padded one. */
  lemma {:induction false} ActualCellCount(dims: seq<nat>, padded: bool)
    requires |dims| > 0 && Positive(dims)
    ensures !padded ==> Product(ActualDims(dims, padded)) == Product(dims)
    ensures padded ==> Product(ActualDims(dims, padded)) > Product(dims)
    ensures Product(ActualDims(dims, padded)) == ActualDim(dims, padded, 0) * Product(dims[1..])
  {
    var act := ActualDims(dims, padded);
    var rest := Product(dims[1..]);
    assert act[1..] == dims[1..];
    assert Product(act) == act[0] * rest;
    ProductPositive(dims[1..]);
    if padded {
      GrowsStrictly(dims[0], act[0], rest);
    } else {
      assert act == dims;
    }
  }

  lemma GrowsStrictly(x: int, e: int, p: int)
    requires x < e && p >= 1
    ensures x * p < e * p
  {
    assert e * p == x * p + (e - x) * p;
    MulMonotone(p, 1, e - x);
  }

  /** Exchanging two axes other than axis 0 commutes with the padding rule,
    * and so does any exchange for an unpadded variable. */
  lemma ActualDimsSwap(dims: seq<nat>, padded: bool, a: nat, b: nat)
    requires a < |dims| && b < |dims|
    requires !padded || (a != 0 && b != 0)
    ensures ActualDims(Swap(dims, a, b), padded) == Swap(ActualDims(dims, padded), a, b)
  {
  }
}
