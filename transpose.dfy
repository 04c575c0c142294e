/**
 * Axis transposition of a row-major buffer (local_transposeVar_2d and
 * local_transposeVar{102,210,021}_3d of gridPatch.c).
 *
 * The specification is a pure coordinate permutation: after exchanging
 * axes a and b, the element at new coordinates k is the old element at
 * coordinates k with entries a and b exchanged.  As in the source, a
 * kernel is given the extents `dT` of the transposed buffer; the buffer it
 * reads has the extents Swap(dT, a, b).  Each kernel walks the transposed
 * buffer in write order (contiguous stores, gathered loads) and is proved
 * to produce exactly the transposition.
 */
module Transpose {
  import opened Geometry

  /** Element `k` of `t` (extents dT) is the element of `data` (extents
    * Swap(dT, a, b)) at the coordinates k with entries a and b exchanged. */
  ghost predicate Moved<T>(t: seq<T>, data: seq<T>, dT: seq<nat>, a: nat, b: nat, k: seq<nat>)
    requires a < |dT| && b < |dT| && |k| == |dT|
  {
    && Offset(k, dT) < |t|
    && Offset(Swap(k, a, b), Swap(dT, a, b)) < |data|
    && t[Offset(k, dT)] == data[Offset(Swap(k, a, b), Swap(dT, a, b))]
  }

  /** `t` is `data` with axes `a` and `b` exchanged; `dT` are the extents
    * of `t`. */
  ghost predicate IsTransposition<T>(t: seq<T>, data: seq<T>, dT: seq<nat>, a: nat, b: nat)
    requires a < |dT| && b < |dT|
  {
    && |t| == Product(dT) && |data| == Product(dT)
    && forall k :: InBox(k, dT) ==> Moved(t, data, dT, a, b, k)
  }

  /** Loop invariant of the kernels: every element whose offset in the
    * transposed buffer is below `done` is in place. */
  ghost predicate DoneBelow<T>(t: seq<T>, data: seq<T>, dT: seq<nat>, a: nat, b: nat, done: nat)
    requires a < |dT| && b < |dT|
  {
    forall k :: InBox(k, dT) && Offset(k, dT) < done ==> Moved(t, data, dT, a, b, k)
  }

  lemma SwapTwice<X>(s: seq<X>, a: nat, b: nat)
    requires a < |s| && b < |s|
    ensures Swap(Swap(s, a, b), a, b) == s
    ensures Swap(s, b, a) == Swap(s, a, b)
  {
  }

  /** Both offsets of an in-box element lie inside their buffers. */
  lemma {:induction false} Positions(k: seq<nat>, dT: seq<nat>, a: nat, b: nat)
    requires a < |dT| && b < |dT| && InBox(k, dT)
    ensures InBox(Swap(k, a, b), Swap(dT, a, b))
    ensures Offset(k, dT) < Product(dT)
    ensures Offset(Swap(k, a, b), Swap(dT, a, b)) < Product(dT)
  {
    OffsetBound(k, dT);
    SwapTwice(dT, a, b);
    SwapInBox(k, Swap(dT, a, b), a, b);
    OffsetBound(Swap(k, a, b), Swap(dT, a, b));
    ProductSwap(dT, a, b);
  }

  // ---------------------------------------------------------------------
  // Properties of the specification

  /** The transposition of a buffer is unique. */
  lemma TranspositionUnique<T>(t1: seq<T>, t2: seq<T>, data: seq<T>, dT: seq<nat>, a: nat, b: nat)
    requires a < |dT| && b < |dT|
    requires IsTransposition(t1, data, dT, a, b) && IsTransposition(t2, data, dT, a, b)
    ensures t1 == t2
  {
    forall o | 0 <= o < |t1|
      ensures t1[o] == t2[o]
    {
      var k := Coords(o, dT);
      assert Moved(t1, data, dT, a, b, k) && Moved(t2, data, dT, a, b, k);
    }
  }

  /** Transposing twice with the same axes restores the buffer. */
  lemma TransposeInvolution<T>(data: seq<T>, once: seq<T>, twice: seq<T>, dT: seq<nat>, a: nat, b: nat)
    requires a < |dT| && b < |dT|
    requires IsTransposition(once, data, dT, a, b)
    requires IsTransposition(twice, once, Swap(dT, a, b), a, b)
    ensures twice == data
  {
    SwapTwice(dT, a, b);
    var d := Swap(dT, a, b);
    forall o | 0 <= o < |data|
      ensures twice[o] == data[o]
    {
      var k := Coords(o, d);
      SwapTwice(k, a, b);
      Positions(k, d, a, b);
      assert Moved(twice, once, d, a, b, k);
      assert Moved(once, data, dT, a, b, Swap(k, a, b));
    }
  }

  /** The order in which the two axes are named does not matter. */
  lemma TranspositionSymmetric<T>(t: seq<T>, data: seq<T>, dT: seq<nat>, a: nat, b: nat)
    requires a < |dT| && b < |dT|
    ensures IsTransposition(t, data, dT, a, b) <==> IsTransposition(t, data, dT, b, a)
  {
    SwapTwice(dT, a, b);
    forall k: seq<nat> | InBox(k, dT)
      ensures Moved(t, data, dT, a, b, k) <==> Moved(t, data, dT, b, a, k)
    {
      SwapTwice(k, a, b);
    }
  }

  /** Transposition moves elements without losing or inventing any: every
    * element of the source appears in the result, and the result holds
    * nothing else. */
  lemma TranspositionCovers<T>(t: seq<T>, data: seq<T>, dT: seq<nat>, a: nat, b: nat)
    requires a < |dT| && b < |dT| && IsTransposition(t, data, dT, a, b)
    ensures forall o :: 0 <= o < |data| ==> data[o] in t
    ensures forall p :: 0 <= p < |t| ==> t[p] in data
  {
    SwapTwice(dT, a, b);
    ProductSwap(dT, a, b);
    forall o | 0 <= o < |data|
      ensures data[o] in t
    {
      var k := Coords(o, Swap(dT, a, b));
      SwapInBox(k, dT, a, b);
      SwapTwice(k, a, b);
      Positions(Swap(k, a, b), dT, a, b);
      assert Moved(t, data, dT, a, b, Swap(k, a, b));
      var p := Offset(Swap(k, a, b), dT);
      assert 0 <= p < |t| && t[p] == data[o];
    }
    forall p | 0 <= p < |t|
      ensures t[p] in data
    {
      var k := Coords(p, dT);
      Positions(k, dT, a, b);
      assert Moved(t, data, dT, a, b, k);
      var o := Offset(Swap(k, a, b), Swap(dT, a, b));
      assert 0 <= o < |data| && t[p] == data[o];
    }
  }

  // ---------------------------------------------------------------------
  // Steps of the kernels

  /** Storing the element that belongs at the next write position extends
    * the part that is in place by one. */
  lemma {:induction false} WriteOne<T>(t: seq<T>, data: seq<T>, dT: seq<nat>, a: nat, b: nat, k: seq<nat>)
    requires a < |dT| && b < |dT| && InBox(k, dT)
    requires |t| == Product(dT) && |data| == Product(dT)
    requires DoneBelow(t, data, dT, a, b, Offset(k, dT))
    ensures Offset(k, dT) < |t| && Offset(Swap(k, a, b), Swap(dT, a, b)) < |data|
    ensures DoneBelow(t[Offset(k, dT) := data[Offset(Swap(k, a, b), Swap(dT, a, b))]],
                      data, dT, a, b, Offset(k, dT) + 1)
  {
    Positions(k, dT, a, b);
    var t' := t[Offset(k, dT) := data[Offset(Swap(k, a, b), Swap(dT, a, b))]];
    forall k' | InBox(k', dT) && Offset(k', dT) < Offset(k, dT) + 1
      ensures Moved(t', data, dT, a, b, k')
    {
      if Offset(k', dT) == Offset(k, dT) {
        OffsetInjective(k', k, dT);
      } else {
        assert Moved(t, data, dT, a, b, k');
      }
    }
  }

  /** Element `c` of the axis-0 row that starts at `k` lies `c` places
    * after the row's start in both buffers, when axis 0 is not exchanged. */
  lemma RowElement(k: seq<nat>, dT: seq<nat>, a: nat, b: nat, c: nat)
    requires 0 < a < |dT| && 0 < b < |dT|
    requires |k| == |dT| && k[0] == 0 && c < dT[0] && InBox(k, dT)
    ensures InBox(k[0 := c], dT)
    ensures Offset(k[0 := c], dT) == Offset(k, dT) + c
    ensures Offset(Swap(k[0 := c], a, b), Swap(dT, a, b)) == Offset(Swap(k, a, b), Swap(dT, a, b)) + c
  {
    OffsetAlongRow(k, dT, c);
    assert Swap(k[0 := c], a, b) == Swap(k, a, b)[0 := c];
    OffsetAlongRow(Swap(k, a, b), Swap(dT, a, b), c);
  }

  /** When axis 0 is not exchanged, an axis-0 row is a contiguous run of
    * both buffers, and the run lies inside each. */
  lemma {:induction false} RowFits(k: seq<nat>, dT: seq<nat>, a: nat, b: nat)
    requires 0 < a < |dT| && 0 < b < |dT|
    requires |k| == |dT| && k[0] == 0 && dT[0] > 0 && InBox(k, dT)
    ensures Offset(k, dT) + dT[0] <= Product(dT)
    ensures Offset(Swap(k, a, b), Swap(dT, a, b)) + dT[0] <= Product(dT)
  {
    RowElement(k, dT, a, b, dT[0] - 1);
    Positions(k[0 := dT[0] - 1], dT, a, b);
  }

  /** Copying an axis-0 row in one run extends the part in place by the
    * whole row. */
  lemma {:induction false} WriteRow<T>(t: seq<T>, t': seq<T>, data: seq<T>, dT: seq<nat>, a: nat, b: nat, k: seq<nat>)
    requires 0 < a < |dT| && 0 < b < |dT|
    requires |k| == |dT| && k[0] == 0 && dT[0] > 0 && InBox(k, dT)
    requires |t| == Product(dT) && |data| == Product(dT)
    requires DoneBelow(t, data, dT, a, b, Offset(k, dT))
    requires IsSplice(t', t, Offset(k, dT), data, Offset(Swap(k, a, b), Swap(dT, a, b)), dT[0])
    ensures DoneBelow(t', data, dT, a, b, Offset(k, dT) + dT[0])
  {
    forall k' | InBox(k', dT) && Offset(k', dT) < Offset(k, dT) + dT[0]
      ensures Moved(t', data, dT, a, b, k')
    {
      RowMoved(t, t', data, dT, a, b, k, k');
    }
  }

  /** One element of the buffer after WriteRow's copy. */
  lemma {:induction false} RowMoved<T>(t: seq<T>, t': seq<T>, data: seq<T>, dT: seq<nat>, a: nat, b: nat, k: seq<nat>, k': seq<nat>)
    requires 0 < a < |dT| && 0 < b < |dT|
    requires |k| == |dT| && k[0] == 0 && dT[0] > 0 && InBox(k, dT)
    requires |t| == Product(dT) && |data| == Product(dT)
    requires DoneBelow(t, data, dT, a, b, Offset(k, dT))
    requires IsSplice(t', t, Offset(k, dT), data, Offset(Swap(k, a, b), Swap(dT, a, b)), dT[0])
    requires InBox(k', dT) && Offset(k', dT) < Offset(k, dT) + dT[0]
    ensures Moved(t', data, dT, a, b, k')
  {
    var o := Offset(k, dT);
    if Offset(k', dT) < o {
      assert Moved(t, data, dT, a, b, k');
    } else {
      InRowMoved(t, t', data, dT, a, b, k, Offset(k', dT) - o);
      OffsetInjective(k', k[0 := Offset(k', dT) - o], dT);
    }
  }

  lemma {:induction false} InRowMoved<T>(t: seq<T>, t': seq<T>, data: seq<T>, dT: seq<nat>, a: nat, b: nat, k: seq<nat>, c: nat)
    requires 0 < a < |dT| && 0 < b < |dT|
    requires |k| == |dT| && k[0] == 0 && c < dT[0] && InBox(k, dT)
    requires IsSplice(t', t, Offset(k, dT), data, Offset(Swap(k, a, b), Swap(dT, a, b)), dT[0])
    ensures InBox(k[0 := c], dT) && Offset(k[0 := c], dT) == Offset(k, dT) + c
    ensures Moved(t', data, dT, a, b, k[0 := c])
  {
    RowElement(k, dT, a, b, c);
  }

  /** Once every offset is covered, the buffer is the transposition. */
  lemma {:induction false} DoneAll<T>(t: seq<T>, data: seq<T>, dT: seq<nat>, a: nat, b: nat)
    requires a < |dT| && b < |dT|
    requires |t| == Product(dT) && |data| == Product(dT)
    requires DoneBelow(t, data, dT, a, b, Product(dT))
    ensures IsTransposition(t, data, dT, a, b)
  {
    forall k | InBox(k, dT)
      ensures Moved(t, data, dT, a, b, k)
    {
      OffsetBound(k, dT);
    }
  }

  // ---------------------------------------------------------------------
  // The copy kernels

  lemma {:induction false} Element2(dT: seq<nat>, k0: nat, k1: nat)
    requires |dT| == 2 && k0 < dT[0] && k1 < dT[1]
    ensures InBox([k0, k1], dT)
    ensures Offset([k0, k1], dT) == k0 + k1 * dT[0]
    ensures Offset(Swap([k0, k1], 0, 1), Swap(dT, 0, 1)) == k1 + k0 * dT[1]
  {
    assert dT == [dT[0], dT[1]];
    assert Swap(dT, 0, 1) == [dT[1], dT[0]] && Swap([k0, k1], 0, 1) == [k1, k0];
    Offset2(k0, k1, dT[0], dT[1]);
    Offset2(k1, k0, dT[1], dT[0]);
  }

  /** local_transposeVar_2d: exchange the two axes of a 2-D buffer. */
  method Transpose2d<T(0)>(data: seq<T>, dimsT: seq<nat>) returns (dataT: seq<T>)
    requires |dimsT| == 2 && |data| == Product(Swap(dimsT, 0, 1))
    ensures IsTransposition(dataT, data, dimsT, 0, 1)
  {
    ProductSwap(dimsT, 0, 1);
    var out := new T[|data|];
    ghost var done := 0;
    var k1 := 0;
    while k1 < dimsT[1]
      invariant 0 <= k1 <= dimsT[1]
      invariant done == k1 * dimsT[0]
      invariant DoneBelow(out[..], data, dimsT, 0, 1, done)
    {
      var k0 := 0;
      while k0 < dimsT[0]
        invariant 0 <= k0 <= dimsT[0]
        invariant done == k0 + k1 * dimsT[0]
        invariant DoneBelow(out[..], data, dimsT, 0, 1, done)
      {
        var posT := k0 + k1 * dimsT[0];
        var pos := k1 + k0 * dimsT[1];
        Element2(dimsT, k0, k1);
        WriteOne(out[..], data, dimsT, 0, 1, [k0, k1]);
        out[posT] := data[pos];
        done := done + 1;
        k0 := k0 + 1;
      }
      k1 := k1 + 1;
    }
    CellCount2(dimsT);
    DoneAll(out[..], data, dimsT, 0, 1);
    dataT := out[..];
  }

  lemma {:induction false} Element3(dT: seq<nat>, k0: nat, k1: nat, k2: nat)
    requires |dT| == 3 && k0 < dT[0] && k1 < dT[1] && k2 < dT[2]
    ensures InBox([k0, k1, k2], dT)
    ensures Offset([k0, k1, k2], dT) == k0 + (k1 + k2 * dT[1]) * dT[0]
  {
    assert dT == [dT[0], dT[1], dT[2]];
    Offset3(k0, k1, k2, dT[0], dT[1], dT[2]);
  }

  lemma Source102(dT: seq<nat>, k0: nat, k1: nat, k2: nat)
    requires |dT| == 3
    ensures Offset(Swap([k0, k1, k2], 0, 1), Swap(dT, 0, 1)) == k1 + (k0 + k2 * dT[0]) * dT[1]
  {
    assert Swap(dT, 0, 1) == [dT[1], dT[0], dT[2]] && Swap([k0, k1, k2], 0, 1) == [k1, k0, k2];
    Offset3(k1, k0, k2, dT[1], dT[0], dT[2]);
  }

  lemma Source210(dT: seq<nat>, k0: nat, k1: nat, k2: nat)
    requires |dT| == 3
    ensures Offset(Swap([k0, k1, k2], 0, 2), Swap(dT, 0, 2)) == k2 + (k1 + k0 * dT[1]) * dT[2]
  {
    assert Swap(dT, 0, 2) == [dT[2], dT[1], dT[0]] && Swap([k0, k1, k2], 0, 2) == [k2, k1, k0];
    Offset3(k2, k1, k0, dT[2], dT[1], dT[0]);
  }

  lemma Source021(dT: seq<nat>, k1: nat, k2: nat)
    requires |dT| == 3
    ensures Offset(Swap([0, k1, k2], 1, 2), Swap(dT, 1, 2)) == (k2 + k1 * dT[2]) * dT[0]
  {
    assert Swap(dT, 1, 2) == [dT[0], dT[2], dT[1]] && Swap([0, k1, k2], 1, 2) == [0, k2, k1];
    Offset3(0, k2, k1, dT[0], dT[2], dT[1]);
  }

  /** The write position moves on by one row of length `n`. */
  lemma RowAdvance(r: int, n: int)
    ensures n + r * n == (r + 1) * n
  {
  }

  lemma RowAdvance2(k2: int, t1: int, t0: int)
    ensures (t1 + k2 * t1) * t0 == ((k2 + 1) * t1) * t0
  {
  }

  /** The innermost loop of local_transposeVar102_3d: one axis-0 row of
    * the transposed buffer, gathered element by element. */
  method Row102<T>(out: array<T>, data: seq<T>, dimsT: seq<nat>, k1: nat, k2: nat)
    modifies out
    requires |dimsT| == 3 && k1 < dimsT[1] && k2 < dimsT[2]
    requires out.Length == Product(dimsT) && |data| == Product(dimsT)
    requires DoneBelow(out[..], data, dimsT, 0, 1, (k1 + k2 * dimsT[1]) * dimsT[0])
    ensures DoneBelow(out[..], data, dimsT, 0, 1, dimsT[0] + (k1 + k2 * dimsT[1]) * dimsT[0])
  {
    ghost var done := (k1 + k2 * dimsT[1]) * dimsT[0];
    var k0 := 0;
    while k0 < dimsT[0]
      invariant 0 <= k0 <= dimsT[0]
      invariant done == k0 + (k1 + k2 * dimsT[1]) * dimsT[0]
      invariant DoneBelow(out[..], data, dimsT, 0, 1, done)
    {
      var posT := k0 + (k1 + k2 * dimsT[1]) * dimsT[0];
      var pos := k1 + (k0 + k2 * dimsT[0]) * dimsT[1];
      Element3(dimsT, k0, k1, k2);
      Source102(dimsT, k0, k1, k2);
      WriteOne(out[..], data, dimsT, 0, 1, [k0, k1, k2]);
      out[posT] := data[pos];
      done := done + 1;
      k0 := k0 + 1;
    }
  }

  /** local_transposeVar102_3d: exchange axes 0 and 1 of a 3-D buffer. */
  method Transpose102<T(0)>(data: seq<T>, dimsT: seq<nat>) returns (dataT: seq<T>)
    requires |dimsT| == 3 && |data| == Product(Swap(dimsT, 0, 1))
    ensures IsTransposition(dataT, data, dimsT, 0, 1)
  {
    ProductSwap(dimsT, 0, 1);
    var out := new T[|data|];
    var k2 := 0;
    while k2 < dimsT[2]
      invariant 0 <= k2 <= dimsT[2]
      invariant DoneBelow(out[..], data, dimsT, 0, 1, (k2 * dimsT[1]) * dimsT[0])
    {
      var k1 := 0;
      while k1 < dimsT[1]
        invariant 0 <= k1 <= dimsT[1]
        invariant DoneBelow(out[..], data, dimsT, 0, 1, (k1 + k2 * dimsT[1]) * dimsT[0])
      {
        Row102(out, data, dimsT, k1, k2);
        RowAdvance(k1 + k2 * dimsT[1], dimsT[0]);
        k1 := k1 + 1;
      }
      RowAdvance2(k2, dimsT[1], dimsT[0]);
      k2 := k2 + 1;
    }
    CellCount3(dimsT);
    DoneAll(out[..], data, dimsT, 0, 1);
    dataT := out[..];
  }

  /** The innermost loop of local_transposeVar210_3d: one axis-0 row of
    * the transposed buffer, gathered element by element. */
  method Row210<T>(out: array<T>, data: seq<T>, dimsT: seq<nat>, k1: nat, k2: nat)
    modifies out
    requires |dimsT| == 3 && k1 < dimsT[1] && k2 < dimsT[2]
    requires out.Length == Product(dimsT) && |data| == Product(dimsT)
    requires DoneBelow(out[..], data, dimsT, 0, 2, (k1 + k2 * dimsT[1]) * dimsT[0])
    ensures DoneBelow(out[..], data, dimsT, 0, 2, dimsT[0] + (k1 + k2 * dimsT[1]) * dimsT[0])
  {
    ghost var done := (k1 + k2 * dimsT[1]) * dimsT[0];
    var k0 := 0;
    while k0 < dimsT[0]
      invariant 0 <= k0 <= dimsT[0]
      invariant done == k0 + (k1 + k2 * dimsT[1]) * dimsT[0]
      invariant DoneBelow(out[..], data, dimsT, 0, 2, done)
    {
      var posT := k0 + (k1 + k2 * dimsT[1]) * dimsT[0];
      var pos := k2 + (k1 + k0 * dimsT[1]) * dimsT[2];
      Element3(dimsT, k0, k1, k2);
      Source210(dimsT, k0, k1, k2);
      WriteOne(out[..], data, dimsT, 0, 2, [k0, k1, k2]);
      out[posT] := data[pos];
      done := done + 1;
      k0 := k0 + 1;
    }
  }

  /** local_transposeVar210_3d: exchange axes 0 and 2 of a 3-D buffer. */
  method Transpose210<T(0)>(data: seq<T>, dimsT: seq<nat>) returns (dataT: seq<T>)
    requires |dimsT| == 3 && |data| == Product(Swap(dimsT, 0, 2))
    ensures IsTransposition(dataT, data, dimsT, 0, 2)
  {
    ProductSwap(dimsT, 0, 2);
    var out := new T[|data|];
    var k2 := 0;
    while k2 < dimsT[2]
      invariant 0 <= k2 <= dimsT[2]
      invariant DoneBelow(out[..], data, dimsT, 0, 2, (k2 * dimsT[1]) * dimsT[0])
    {
      var k1 := 0;
      while k1 < dimsT[1]
        invariant 0 <= k1 <= dimsT[1]
        invariant DoneBelow(out[..], data, dimsT, 0, 2, (k1 + k2 * dimsT[1]) * dimsT[0])
      {
        Row210(out, data, dimsT, k1, k2);
        RowAdvance(k1 + k2 * dimsT[1], dimsT[0]);
        k1 := k1 + 1;
      }
      RowAdvance2(k2, dimsT[1], dimsT[0]);
      k2 := k2 + 1;
    }
    CellCount3(dimsT);
    DoneAll(out[..], data, dimsT, 0, 2);
    dataT := out[..];
  }

  /** The body of local_transposeVar021_3d's loops: one axis-0 row,
    * copied in one run. */
  method Row021<T>(out: array<T>, data: seq<T>, dimsT: seq<nat>, k1: nat, k2: nat)
    modifies out
    requires |dimsT| == 3 && k1 < dimsT[1] && k2 < dimsT[2]
    requires out.Length == Product(dimsT) && |data| == Product(dimsT)
    requires DoneBelow(out[..], data, dimsT, 1, 2, (k1 + k2 * dimsT[1]) * dimsT[0])
    ensures DoneBelow(out[..], data, dimsT, 1, 2, dimsT[0] + (k1 + k2 * dimsT[1]) * dimsT[0])
  {
    var posT := (k1 + k2 * dimsT[1]) * dimsT[0];
    var pos := (k2 + k1 * dimsT[2]) * dimsT[0];
    if dimsT[0] > 0 {
      Element3(dimsT, 0, k1, k2);
      Source021(dimsT, k1, k2);
      ghost var t := out[..];
      RowFits([0, k1, k2], dimsT, 1, 2);
      CopyRun(out, posT, data, pos, dimsT[0]);
      WriteRow(t, out[..], data, dimsT, 1, 2, [0, k1, k2]);
    }
  }

  /** local_transposeVar021_3d: exchange axes 1 and 2 of a 3-D buffer. */
  method Transpose021<T(0)>(data: seq<T>, dimsT: seq<nat>) returns (dataT: seq<T>)
    requires |dimsT| == 3 && |data| == Product(Swap(dimsT, 1, 2))
    ensures IsTransposition(dataT, data, dimsT, 1, 2)
  {
    ProductSwap(dimsT, 1, 2);
    var out := new T[|data|];
    var k2 := 0;
    while k2 < dimsT[2]
      invariant 0 <= k2 <= dimsT[2]
      invariant DoneBelow(out[..], data, dimsT, 1, 2, (k2 * dimsT[1]) * dimsT[0])
    {
      var k1 := 0;
      while k1 < dimsT[1]
        invariant 0 <= k1 <= dimsT[1]
        invariant DoneBelow(out[..], data, dimsT, 1, 2, (k1 + k2 * dimsT[1]) * dimsT[0])
      {
        Row021(out, data, dimsT, k1, k2);
        RowAdvance(k1 + k2 * dimsT[1], dimsT[0]);
        k1 := k1 + 1;
      }
      RowAdvance2(k2, dimsT[1], dimsT[0]);
      k2 := k2 + 1;
    }
    CellCount3(dimsT);
    DoneAll(out[..], data, dimsT, 1, 2);
    dataT := out[..];
  }
}
