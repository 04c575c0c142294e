/**
 * Windowed access to a variable's buffer: gridPatch_getWindowedDataCopy,
 * gridPatch_putWindowedData and local_getWindowDims of gridPatch.c.
 *
 * A window is a sub-box of the patch given by its corners [lo, hi].  Here
 * `rel` is its lower corner relative to the patch's lower corner and `wd`
 * its extents.  Both operations walk the window one axis-0 row at a time,
 * with the patch's logical extents `dims` as the row stride, and copy each
 * row in one run.
 */
module Window {
  import opened Geometry

  /** The window [rel, rel + wd) lies inside a patch of extents `dims`. */
  predicate Fits(rel: seq<nat>, wd: seq<nat>, dims: seq<nat>)
  {
    |rel| == |wd| == |dims| && forall i :: 0 <= i < |dims| ==> rel[i] + wd[i] <= dims[i]
  }

  /** A window cell and the patch cell it stands for. */
  lemma {:induction false} InPatch(rel: seq<nat>, wd: seq<nat>, dims: seq<nat>, k: seq<nat>)
    requires Fits(rel, wd, dims) && InBox(k, wd)
    ensures InBox(Add(rel, k), dims)
    ensures Offset(k, wd) < Product(wd)
    ensures Offset(Add(rel, k), dims) < Product(dims)
  {
    OffsetBound(k, wd);
    OffsetBound(Add(rel, k), dims);
  }

  lemma AddInjective(rel: seq<nat>, x: seq<nat>, y: seq<nat>)
    requires |rel| == |x| == |y| && Add(rel, x) == Add(rel, y)
    ensures x == y
  {
    forall i | 0 <= i < |x|
      ensures x[i] == y[i]
    {
      assert Add(rel, x)[i] == Add(rel, y)[i];
    }
  }

  // ---------------------------------------------------------------------
  // Specification

  /** Window cell `k` of `copy` holds the patch cell rel + k of `data`. */
  ghost predicate CopiedAt<T>(copy: seq<T>, data: seq<T>, dims: seq<nat>, rel: seq<nat>, wd: seq<nat>, k: seq<nat>)
    requires |rel| == |wd| == |dims| == |k|
  {
    && Offset(k, wd) < |copy|
    && Offset(Add(rel, k), dims) < |data|
    && copy[Offset(k, wd)] == data[Offset(Add(rel, k), dims)]
  }

  /** `copy` is the window of `data`, laid out row-major with extents `wd`. */
  ghost predicate IsWindowCopy<T>(copy: seq<T>, data: seq<T>, dims: seq<nat>, rel: seq<nat>, wd: seq<nat>)
    requires |rel| == |wd| == |dims|
  {
    && |copy| == Product(wd)
    && forall k :: InBox(k, wd) ==> CopiedAt(copy, data, dims, rel, wd, k)
  }

  /** Patch cell rel + k of `target` holds window cell `k` of `src`. */
  ghost predicate PutAt<T>(target: seq<T>, src: seq<T>, dims: seq<nat>, rel: seq<nat>, wd: seq<nat>, k: seq<nat>)
    requires |rel| == |wd| == |dims| == |k|
  {
    && Offset(Add(rel, k), dims) < |target|
    && Offset(k, wd) < |src|
    && target[Offset(Add(rel, k), dims)] == src[Offset(k, wd)]
  }

  /** Offset `o` of the patch buffer is one of the first `done` cells of
    * the window (in the window's row-major order). */
  ghost predicate Covered(o: nat, dims: seq<nat>, rel: seq<nat>, wd: seq<nat>, done: int)
    requires |rel| == |wd| == |dims|
  {
    exists k :: InBox(k, wd) && Offset(k, wd) < done && Offset(Add(rel, k), dims) == o
  }

  /** Offset `o` of the patch buffer lies in the window. */
  ghost predicate InWindow(o: nat, dims: seq<nat>, rel: seq<nat>, wd: seq<nat>)
    requires |rel| == |wd| == |dims|
  {
    exists k :: InBox(k, wd) && Offset(Add(rel, k), dims) == o
  }

  /** `target` is `prior` with the window overwritten by `src`: the window
    * cells hold `src`, every other cell is unchanged. */
  ghost predicate IsWindowPut<T>(target: seq<T>, prior: seq<T>, src: seq<T>, dims: seq<nat>, rel: seq<nat>, wd: seq<nat>)
    requires |rel| == |wd| == |dims|
  {
    && |target| == |prior|
    && (forall k :: InBox(k, wd) ==> PutAt(target, src, dims, rel, wd, k))
    && (forall o :: 0 <= o < |prior| && !InWindow(o, dims, rel, wd) ==> target[o] == prior[o])
  }

  // ---------------------------------------------------------------------
  // Properties of the specification

  /** The window copy of a buffer is unique. */
  lemma WindowCopyUnique<T>(c1: seq<T>, c2: seq<T>, data: seq<T>, dims: seq<nat>, rel: seq<nat>, wd: seq<nat>)
    requires |rel| == |wd| == |dims|
    requires IsWindowCopy(c1, data, dims, rel, wd) && IsWindowCopy(c2, data, dims, rel, wd)
    ensures c1 == c2
  {
    forall o | 0 <= o < |c1|
      ensures c1[o] == c2[o]
    {
      var k := Coords(o, wd);
      assert CopiedAt(c1, data, dims, rel, wd, k) && CopiedAt(c2, data, dims, rel, wd, k);
    }
  }

  /** Reading back a window that was just written gives what was written,
    * whatever the rest of the buffer holds. */
  lemma CopyAfterPut<T>(target: seq<T>, src: seq<T>, c: seq<T>, dims: seq<nat>, rel: seq<nat>, wd: seq<nat>)
    requires |rel| == |wd| == |dims|
    requires forall k :: InBox(k, wd) ==> PutAt(target, src, dims, rel, wd, k)
    requires IsWindowCopy(c, target, dims, rel, wd)
    ensures |src| >= |c| && c == src[..|c|]
  {
    if |c| > 0 {
      var k := Coords(|c| - 1, wd);
      assert PutAt(target, src, dims, rel, wd, k);
    }
    forall o | 0 <= o < |c|
      ensures c[o] == src[o]
    {
      var k := Coords(o, wd);
      assert CopiedAt(c, target, dims, rel, wd, k) && PutAt(target, src, dims, rel, wd, k);
    }
  }

  /** Writing back an unmodified window copy leaves the buffer as it was. */
  lemma PutOfCopy<T>(data: seq<T>, c: seq<T>, target: seq<T>, dims: seq<nat>, rel: seq<nat>, wd: seq<nat>)
    requires |rel| == |wd| == |dims|
    requires IsWindowCopy(c, data, dims, rel, wd)
    requires IsWindowPut(target, data, c, dims, rel, wd)
    ensures target == data
  {
    forall o | 0 <= o < |data|
      ensures target[o] == data[o]
    {
      if InWindow(o, dims, rel, wd) {
        var k :| InBox(k, wd) && Offset(Add(rel, k), dims) == o;
        assert PutAt(target, c, dims, rel, wd, k) && CopiedAt(c, data, dims, rel, wd, k);
      }
    }
  }

  /** Writing the same window twice has the effect of writing it once. */
  lemma PutIdempotent<T>(once: seq<T>, twice: seq<T>, prior: seq<T>, src: seq<T>, dims: seq<nat>, rel: seq<nat>, wd: seq<nat>)
    requires |rel| == |wd| == |dims|
    requires IsWindowPut(once, prior, src, dims, rel, wd)
    requires IsWindowPut(twice, once, src, dims, rel, wd)
    ensures twice == once
  {
    forall o | 0 <= o < |once|
      ensures twice[o] == once[o]
    {
      if InWindow(o, dims, rel, wd) {
        var k :| InBox(k, wd) && Offset(Add(rel, k), dims) == o;
        assert PutAt(once, src, dims, rel, wd, k) && PutAt(twice, src, dims, rel, wd, k);
      }
    }
  }

  /** The window that spans the whole patch is the patch's buffer. */
  lemma {:induction false} WholeWindow<T>(c: seq<T>, data: seq<T>, dims: seq<nat>, zero: seq<nat>)
    requires |zero| == |dims| && (forall i :: 0 <= i < |zero| ==> zero[i] == 0)
    requires |data| >= Product(dims)
    requires IsWindowCopy(c, data, dims, zero, dims)
    ensures c == data[..Product(dims)]
  {
    forall o | 0 <= o < |c|
      ensures c[o] == data[o]
    {
      var k := Coords(o, dims);
      assert Add(zero, k) == k;
      assert CopiedAt(c, data, dims, zero, dims, k);
    }
  }

  // ---------------------------------------------------------------------
  // Rows of a window

  /** `key` names an axis-0 row of the window: coordinate 0 on axis 0 and
    * in-range coordinates on the other axes. */
  predicate RowKey(key: seq<nat>, wd: seq<nat>)
  {
    |key| == |wd| > 0 && key[0] == 0 && forall i :: 1 <= i < |wd| ==> key[i] < wd[i]
  }

  /** Element `c` of a window row lies `c` places after the row's start,
    * both in the window and in the patch. */
  lemma RowElement(rel: seq<nat>, wd: seq<nat>, dims: seq<nat>, key: seq<nat>, c: nat)
    requires Fits(rel, wd, dims) && RowKey(key, wd) && c < wd[0]
    ensures InBox(key[0 := c], wd)
    ensures Offset(key[0 := c], wd) == Offset(key, wd) + c
    ensures Offset(Add(rel, key[0 := c]), dims) == Offset(Add(rel, key), dims) + c
  {
    OffsetAlongRow(key, wd, c);
    assert Add(rel, key[0 := c]) == Add(rel, key)[0 := Add(rel, key)[0] + c];
    OffsetAlongRow(Add(rel, key), dims, c);
  }

  /** The first and last cells of a non-empty row lie inside both buffers. */
  lemma {:induction false} RowBounds(rel: seq<nat>, wd: seq<nat>, dims: seq<nat>, key: seq<nat>)
    requires Fits(rel, wd, dims) && RowKey(key, wd) && wd[0] > 0
    ensures Offset(key, wd) + wd[0] <= Product(wd)
    ensures Offset(Add(rel, key), dims) + wd[0] <= Product(dims)
  {
    RowElement(rel, wd, dims, key, wd[0] - 1);
    InPatch(rel, wd, dims, key[0 := wd[0] - 1]);
  }

  /** Loop invariant of the copy-out: the first `done` window cells are
    * copied. */
  ghost predicate CopyDoneBelow<T>(copy: seq<T>, data: seq<T>, dims: seq<nat>, rel: seq<nat>, wd: seq<nat>, done: int)
    requires |rel| == |wd| == |dims|
  {
    forall k :: InBox(k, wd) && Offset(k, wd) < done ==> CopiedAt(copy, data, dims, rel, wd, k)
  }

  lemma {:induction false} CopyRowAt<T>(t: seq<T>, t': seq<T>, data: seq<T>, dims: seq<nat>, rel: seq<nat>, wd: seq<nat>, key: seq<nat>, k: seq<nat>)
    requires Fits(rel, wd, dims) && RowKey(key, wd) && wd[0] > 0
    requires |t| == Product(wd) && |data| >= Product(dims)
    requires InBox(k, wd) && Offset(k, wd) < Offset(key, wd) + wd[0]
    requires Offset(k, wd) < Offset(key, wd) ==> CopiedAt(t, data, dims, rel, wd, k)
    requires IsSplice(t', t, Offset(key, wd), data, Offset(Add(rel, key), dims), wd[0])
    ensures CopiedAt(t', data, dims, rel, wd, k)
  {
    InPatch(rel, wd, dims, k);
    RowHit(rel, wd, dims, key, k);
  }

  /** Copying one row out extends the copied part by the row. */
  lemma {:induction false} CopyRow<T>(t: seq<T>, t': seq<T>, data: seq<T>, dims: seq<nat>, rel: seq<nat>, wd: seq<nat>, key: seq<nat>)
    requires Fits(rel, wd, dims) && RowKey(key, wd) && wd[0] > 0
    requires |t| == Product(wd) && |data| >= Product(dims)
    requires CopyDoneBelow(t, data, dims, rel, wd, Offset(key, wd))
    requires IsSplice(t', t, Offset(key, wd), data, Offset(Add(rel, key), dims), wd[0])
    ensures CopyDoneBelow(t', data, dims, rel, wd, Offset(key, wd) + wd[0])
  {
    var o := Offset(key, wd);
    forall k | InBox(k, wd) && Offset(k, wd) < o + wd[0]
      ensures CopiedAt(t', data, dims, rel, wd, k)
    {
      CopyRowAt(t, t', data, dims, rel, wd, key, k);
    }
  }

  lemma {:induction false} CopyDone<T>(copy: seq<T>, data: seq<T>, dims: seq<nat>, rel: seq<nat>, wd: seq<nat>)
    requires |rel| == |wd| == |dims| && |copy| == Product(wd)
    requires CopyDoneBelow(copy, data, dims, rel, wd, Product(wd))
    ensures IsWindowCopy(copy, data, dims, rel, wd)
  {
    forall k | InBox(k, wd)
      ensures CopiedAt(copy, data, dims, rel, wd, k)
    {
      OffsetBound(k, wd);
    }
  }

  /** Loop invariant of the write-back: the first `done` window cells are
    * written and every other cell still holds its prior value. */
  ghost predicate PutDoneBelow<T>(t: seq<T>, prior: seq<T>, src: seq<T>, dims: seq<nat>, rel: seq<nat>, wd: seq<nat>, done: int)
    requires |rel| == |wd| == |dims|
  {
    && |t| == |prior|
    && (forall k :: InBox(k, wd) && Offset(k, wd) < done ==> PutAt(t, src, dims, rel, wd, k))
    && (forall o :: 0 <= o < |prior| && !Covered(o, dims, rel, wd, done) ==> t[o] == prior[o])
  }

  /** A patch cell of the window that falls inside the patch run of row
    * `key` is the row's cell at that position. */
  lemma {:induction false} InRow(rel: seq<nat>, wd: seq<nat>, dims: seq<nat>, key: seq<nat>, k: seq<nat>, c: nat)
    requires Fits(rel, wd, dims) && RowKey(key, wd) && c < wd[0] && InBox(k, wd)
    requires Offset(Add(rel, k), dims) == Offset(Add(rel, key), dims) + c
    ensures Offset(k, wd) == Offset(key, wd) + c
  {
    RowElement(rel, wd, dims, key, c);
    InPatch(rel, wd, dims, k);
    InPatch(rel, wd, dims, key[0 := c]);
    OffsetInjective(Add(rel, k), Add(rel, key[0 := c]), dims);
    AddInjective(rel, k, key[0 := c]);
  }

  /** Window cell `k` lies in row `key` of the window exactly when its
    * patch cell lies in the row's run of the patch buffer, at the same
    * position within the row. */
  lemma {:induction false} RowHit(rel: seq<nat>, wd: seq<nat>, dims: seq<nat>, key: seq<nat>, k: seq<nat>)
    requires Fits(rel, wd, dims) && RowKey(key, wd) && InBox(k, wd)
    ensures
      var o, s, w, p := Offset(key, wd), Offset(Add(rel, key), dims), Offset(k, wd), Offset(Add(rel, k), dims);
      (o <= w < o + wd[0] <==> s <= p < s + wd[0]) && (o <= w < o + wd[0] ==> p - s == w - o)
  {
    var o, s, w, p := Offset(key, wd), Offset(Add(rel, key), dims), Offset(k, wd), Offset(Add(rel, k), dims);
    if o <= w < o + wd[0] {
      var c := w - o;
      RowElement(rel, wd, dims, key, c);
      OffsetInjective(k, key[0 := c], wd);
    } else if s <= p < s + wd[0] {
      InRow(rel, wd, dims, key, k, p - s);
    }
  }

  /** Every cell of row `key` is among the window cells written once the
    * row is. */
  lemma {:induction false} RowCovered(rel: seq<nat>, wd: seq<nat>, dims: seq<nat>, key: seq<nat>, q: nat)
    requires Fits(rel, wd, dims) && RowKey(key, wd)
    requires Offset(Add(rel, key), dims) <= q < Offset(Add(rel, key), dims) + wd[0]
    ensures Covered(q, dims, rel, wd, Offset(key, wd) + wd[0])
  {
    var c := q - Offset(Add(rel, key), dims);
    RowElement(rel, wd, dims, key, c);
    var k := key[0 := c];
    assert InBox(k, wd) && Offset(k, wd) < Offset(key, wd) + wd[0] && Offset(Add(rel, k), dims) == q;
  }

  lemma CoveredGrows(q: nat, dims: seq<nat>, rel: seq<nat>, wd: seq<nat>, d1: nat, d2: nat)
    requires |rel| == |wd| == |dims| && d1 <= d2
    ensures Covered(q, dims, rel, wd, d1) ==> Covered(q, dims, rel, wd, d2)
    ensures Covered(q, dims, rel, wd, d1) ==> InWindow(q, dims, rel, wd)
  {
    if Covered(q, dims, rel, wd, d1) {
      var k :| InBox(k, wd) && Offset(k, wd) < d1 && Offset(Add(rel, k), dims) == q;
      assert Offset(k, wd) < d2;
    }
  }

  lemma {:induction false} PutRowAt<T>(t: seq<T>, t': seq<T>, src: seq<T>, dims: seq<nat>, rel: seq<nat>, wd: seq<nat>, key: seq<nat>, k: seq<nat>)
    requires Fits(rel, wd, dims) && RowKey(key, wd) && wd[0] > 0
    requires |src| >= Product(wd) && |t| >= Product(dims)
    requires InBox(k, wd) && Offset(k, wd) < Offset(key, wd) + wd[0]
    requires Offset(k, wd) < Offset(key, wd) ==> PutAt(t, src, dims, rel, wd, k)
    requires IsSplice(t', t, Offset(Add(rel, key), dims), src, Offset(key, wd), wd[0])
    ensures PutAt(t', src, dims, rel, wd, k)
  {
    InPatch(rel, wd, dims, k);
    RowHit(rel, wd, dims, key, k);
  }

  lemma {:induction false} PutRowFrame<T>(t: seq<T>, t': seq<T>, src: seq<T>, dims: seq<nat>, rel: seq<nat>, wd: seq<nat>, key: seq<nat>, q: nat)
    requires Fits(rel, wd, dims) && RowKey(key, wd) && wd[0] > 0
    requires IsSplice(t', t, Offset(Add(rel, key), dims), src, Offset(key, wd), wd[0])
    requires q < |t| && !Covered(q, dims, rel, wd, Offset(key, wd) + wd[0])
    ensures t'[q] == t[q]
  {
    var s := Offset(Add(rel, key), dims);
    if s <= q < s + wd[0] {
      RowCovered(rel, wd, dims, key, q);
      assert false;
    }
  }

  /** Writing row `key` back leaves every window cell of the row and
    * before it written. */
  lemma {:induction false} PutRowWritten<T>(t: seq<T>, t': seq<T>, src: seq<T>, dims: seq<nat>, rel: seq<nat>, wd: seq<nat>, key: seq<nat>)
    requires Fits(rel, wd, dims) && RowKey(key, wd) && wd[0] > 0
    requires |src| >= Product(wd) && |t| >= Product(dims)
    requires forall k :: InBox(k, wd) && Offset(k, wd) < Offset(key, wd) ==> PutAt(t, src, dims, rel, wd, k)
    requires IsSplice(t', t, Offset(Add(rel, key), dims), src, Offset(key, wd), wd[0])
    ensures forall k :: InBox(k, wd) && Offset(k, wd) < Offset(key, wd) + wd[0] ==> PutAt(t', src, dims, rel, wd, k)
  {
    forall k | InBox(k, wd) && Offset(k, wd) < Offset(key, wd) + wd[0]
      ensures PutAt(t', src, dims, rel, wd, k)
    {
      PutRowAt(t, t', src, dims, rel, wd, key, k);
    }
  }

  /** Writing row `key` back leaves every cell outside the window cells
    * written so far as it was. */
  lemma {:induction false} PutRowKept<T>(t: seq<T>, t': seq<T>, prior: seq<T>, src: seq<T>, dims: seq<nat>, rel: seq<nat>, wd: seq<nat>, key: seq<nat>)
    requires Fits(rel, wd, dims) && RowKey(key, wd) && wd[0] > 0 && |t| == |prior|
    requires forall q :: 0 <= q < |prior| && !Covered(q, dims, rel, wd, Offset(key, wd)) ==> t[q] == prior[q]
    requires IsSplice(t', t, Offset(Add(rel, key), dims), src, Offset(key, wd), wd[0])
    ensures |t'| == |prior|
    ensures forall q :: 0 <= q < |prior| && !Covered(q, dims, rel, wd, Offset(key, wd) + wd[0]) ==> t'[q] == prior[q]
  {
    var o := Offset(key, wd);
    forall q | 0 <= q < |prior| && !Covered(q, dims, rel, wd, o + wd[0])
      ensures t'[q] == prior[q]
    {
      PutRowFrame(t, t', src, dims, rel, wd, key, q);
      CoveredGrows(q, dims, rel, wd, o, o + wd[0]);
    }
  }

  lemma PutStart<T>(prior: seq<T>, src: seq<T>, dims: seq<nat>, rel: seq<nat>, wd: seq<nat>)
    requires |rel| == |wd| == |dims|
    ensures PutDoneBelow(prior, prior, src, dims, rel, wd, 0)
  {
  }

  lemma {:induction false} PutDone<T>(t: seq<T>, prior: seq<T>, src: seq<T>, dims: seq<nat>, rel: seq<nat>, wd: seq<nat>)
    requires |rel| == |wd| == |dims|
    requires PutDoneBelow(t, prior, src, dims, rel, wd, Product(wd))
    ensures IsWindowPut(t, prior, src, dims, rel, wd)
  {
    forall k | InBox(k, wd)
      ensures PutAt(t, src, dims, rel, wd, k)
    {
      OffsetBound(k, wd);
    }
    forall o | 0 <= o < |prior| && !InWindow(o, dims, rel, wd)
      ensures t[o] == prior[o]
    {
      CoveredGrows(o, dims, rel, wd, Product(wd), Product(wd));
    }
  }

  // ---------------------------------------------------------------------
  // Row offsets of the 2-D and 3-D loops

  lemma {:induction false} RowOffsets2(rel: seq<nat>, wd: seq<nat>, dims: seq<nat>, j: nat)
    requires Fits(rel, wd, dims) && |dims| == 2 && j < wd[1]
    ensures RowKey([0, j], wd)
    ensures Offset([0, j], wd) == j * wd[0]
    ensures Offset(Add(rel, [0, j]), dims) == rel[0] + (rel[1] + j) * dims[0]
  {
    assert wd == [wd[0], wd[1]] && dims == [dims[0], dims[1]];
    assert Add(rel, [0, j]) == [rel[0], rel[1] + j];
    Offset2(0, j, wd[0], wd[1]);
    Offset2(rel[0], rel[1] + j, dims[0], dims[1]);
  }

  lemma {:induction false} RowOffsets3(rel: seq<nat>, wd: seq<nat>, dims: seq<nat>, j: nat, k: nat)
    requires Fits(rel, wd, dims) && |dims| == 3 && j < wd[1] && k < wd[2]
    ensures RowKey([0, j, k], wd)
    ensures Offset([0, j, k], wd) == (j + k * wd[1]) * wd[0]
    ensures Offset(Add(rel, [0, j, k]), dims) == rel[0] + (rel[1] + j + (rel[2] + k) * dims[1]) * dims[0]
  {
    assert wd == [wd[0], wd[1], wd[2]];
    Offset3(0, j, k, wd[0], wd[1], wd[2]);
    PatchRow3(rel, dims, j, k);
  }

  lemma {:induction false} PatchRow3(rel: seq<nat>, dims: seq<nat>, j: nat, k: nat)
    requires |rel| == |dims| == 3
    ensures Offset(Add(rel, [0, j, k]), dims) == rel[0] + (rel[1] + j + (rel[2] + k) * dims[1]) * dims[0]
  {
    assert dims == [dims[0], dims[1], dims[2]];
    assert Add(rel, [0, j, k]) == [rel[0], rel[1] + j, rel[2] + k];
    Offset3(rel[0], rel[1] + j, rel[2] + k, dims[0], dims[1], dims[2]);
  }

  /** The start of a slab as the 3-D loops compute it. */
  lemma SlabStart(r0: int, r1: int, r2: int, d0: int, d1: int)
    ensures r0 + r1 * d0 + r2 * d0 * d1 == r0 + (r1 + r2 * d1) * d0
  {
  }

  lemma SlabAdvance(k: int, w1: int, w0: int)
    ensures (w1 + k * w1) * w0 == ((k + 1) * w1) * w0
  {
  }

  /** The offsets of the 2-D loops advance by one row. */
  lemma RowStep(r0: int, r1: int, j: int, n: int, w: int)
    ensures j * w + w == (j + 1) * w
    ensures r0 + (r1 + j) * n + n == r0 + (r1 + (j + 1)) * n
  {
  }

  lemma NextRow(x: int, y: int, n: int)
    ensures (x + y) * n + n == (x + 1 + y) * n
  {
  }

  // ---------------------------------------------------------------------
  // The operations

  /** The extents of the window [lo, hi], both corners inclusive. */
  function Extent(lo: seq<nat>, hi: seq<nat>): (wd: seq<nat>)
    requires |lo| == |hi| && forall i :: 0 <= i < |lo| ==> lo[i] <= hi[i] + 1
    ensures |wd| == |lo| && forall i :: 0 <= i < |lo| ==> lo[i] + wd[i] == hi[i] + 1
  {
    seq(|lo|, i requires 0 <= i < |lo| => hi[i] + 1 - lo[i])
  }

  /** local_getWindowDims: the extents of the window [lo, hi] (both
    * corners inclusive) and its number of cells. */
  method WindowDims(lo: seq<nat>, hi: seq<nat>) returns (wd: seq<nat>, num: nat)
    requires |lo| == |hi| && forall i :: 0 <= i < |lo| ==> lo[i] <= hi[i] + 1
    ensures wd == Extent(lo, hi) && num == Product(wd)
  {
    wd := [];
    num := 1;
    var i := 0;
    while i < |lo|
      invariant 0 <= i <= |lo| && |wd| == i
      invariant forall j :: 0 <= j < i ==> lo[j] + wd[j] == hi[j] + 1
      invariant num == Product(wd)
    {
      ProductAppend(wd, hi[i] + 1 - lo[i]);
      num := num * (hi[i] + 1 - lo[i]);
      wd := wd + [hi[i] + 1 - lo[i]];
      i := i + 1;
    }
    assert wd == Extent(lo, hi);
  }

  /** One memcpy of the copy-out: the row `key` of the window. */
  method CopyRowOut<T>(out: array<T>, data: seq<T>, dims: seq<nat>, rel: seq<nat>, wd: seq<nat>, key: seq<nat>,
                       offsetCopy: int, offsetData: int)
    modifies out
    requires Fits(rel, wd, dims) && RowKey(key, wd)
    requires out.Length == Product(wd) && |data| >= Product(dims)
    requires offsetCopy == Offset(key, wd) && offsetData == Offset(Add(rel, key), dims)
    requires CopyDoneBelow(out[..], data, dims, rel, wd, offsetCopy)
    ensures CopyDoneBelow(out[..], data, dims, rel, wd, offsetCopy + wd[0])
  {
    if wd[0] > 0 {
      ghost var t := out[..];
      RowBounds(rel, wd, dims, key);
      CopyRun(out, offsetCopy, data, offsetData, wd[0]);
      CopyRow(t, out[..], data, dims, rel, wd, key);
    }
  }

  /** The copying loop of gridPatch_getWindowedDataCopy for a 2-D patch. */
  method CopyRows2<T>(out: array<T>, data: seq<T>, dims: seq<nat>, rel: seq<nat>, wd: seq<nat>)
    modifies out
    requires |dims| == 2 && Fits(rel, wd, dims) && |data| >= Product(dims)
    requires out.Length == Product(wd)
    ensures CopyDoneBelow(out[..], data, dims, rel, wd, Product(wd))
  {
    var offsetCopy := 0;
    var offsetData := rel[0] + rel[1] * dims[0];
    var j := 0;
    while j < wd[1]
      invariant j <= wd[1]
      invariant offsetCopy == j * wd[0]
      invariant offsetData == rel[0] + (rel[1] + j) * dims[0]
      invariant CopyDoneBelow(out[..], data, dims, rel, wd, offsetCopy)
    {
      RowOffsets2(rel, wd, dims, j);
      CopyRowOut(out, data, dims, rel, wd, [0, j], offsetCopy, offsetData);
      RowStep(rel[0], rel[1], j, dims[0], wd[0]);
      offsetCopy := offsetCopy + wd[0];
      offsetData := offsetData + dims[0];
      j := j + 1;
    }
    CellCount2(wd);
  }

  /** The inner loop of gridPatch_getWindowedDataCopy for a 3-D patch: the
    * rows of slab `k` of the window. */
  method CopySlab3<T>(out: array<T>, data: seq<T>, dims: seq<nat>, rel: seq<nat>, wd: seq<nat>, k: nat, offsetCopy0: int)
      returns (offsetCopy: int)
    modifies out
    requires |dims| == 3 && Fits(rel, wd, dims) && |data| >= Product(dims) && k < wd[2]
    requires out.Length == Product(wd)
    requires offsetCopy0 == (k * wd[1]) * wd[0]
    requires CopyDoneBelow(out[..], data, dims, rel, wd, offsetCopy0)
    ensures offsetCopy == ((k + 1) * wd[1]) * wd[0]
    ensures CopyDoneBelow(out[..], data, dims, rel, wd, offsetCopy)
  {
    offsetCopy := offsetCopy0;
    var offsetData := rel[0] + rel[1] * dims[0] + (rel[2] + k) * dims[0] * dims[1];
    SlabStart(rel[0], rel[1], rel[2] + k, dims[0], dims[1]);
    var j := 0;
    while j < wd[1]
      invariant j <= wd[1]
      invariant offsetCopy == (j + k * wd[1]) * wd[0]
      invariant offsetData == rel[0] + (rel[1] + j + (rel[2] + k) * dims[1]) * dims[0]
      invariant CopyDoneBelow(out[..], data, dims, rel, wd, offsetCopy)
    {
      RowOffsets3(rel, wd, dims, j, k);
      CopyRowOut(out, data, dims, rel, wd, [0, j, k], offsetCopy, offsetData);
      NextRow(j, k * wd[1], wd[0]);
      NextRow(rel[1] + j, (rel[2] + k) * dims[1], dims[0]);
      offsetCopy := offsetCopy + wd[0];
      offsetData := offsetData + dims[0];
      j := j + 1;
    }
    SlabAdvance(k, wd[1], wd[0]);
  }

  /** The copying loops of gridPatch_getWindowedDataCopy for a 3-D patch. */
  method CopyRows3<T>(out: array<T>, data: seq<T>, dims: seq<nat>, rel: seq<nat>, wd: seq<nat>)
    modifies out
    requires |dims| == 3 && Fits(rel, wd, dims) && |data| >= Product(dims)
    requires out.Length == Product(wd)
    ensures CopyDoneBelow(out[..], data, dims, rel, wd, Product(wd))
  {
    var offsetCopy := 0;
    var k := 0;
    while k < wd[2]
      invariant k <= wd[2]
      invariant offsetCopy == (k * wd[1]) * wd[0]
      invariant CopyDoneBelow(out[..], data, dims, rel, wd, offsetCopy)
    {
      offsetCopy := CopySlab3(out, data, dims, rel, wd, k, offsetCopy);
      k := k + 1;
    }
    CellCount3(wd);
  }

  /** gridPatch_getWindowedDataCopy's copy: the window of a 2-D or 3-D
    * buffer gathered row by row into a new buffer of `num` cells. */
  method CopyWindowOut<T(0)>(data: seq<T>, dims: seq<nat>, rel: seq<nat>, wd: seq<nat>, num: nat) returns (copy: seq<T>)
    requires |dims| == 2 || |dims| == 3
    requires Fits(rel, wd, dims) && |data| >= Product(dims) && num == Product(wd)
    ensures IsWindowCopy(copy, data, dims, rel, wd)
  {
    var out := new T[num];
    if |dims| == 2 {
      CopyRows2(out, data, dims, rel, wd);
    } else {
      CopyRows3(out, data, dims, rel, wd);
    }
    CopyDone(out[..], data, dims, rel, wd);
    copy := out[..];
  }

  /** One memcpy of the write-back: the row `key` of the window. */
  method PutRowIn<T>(buf: array<T>, ghost prior: seq<T>, src: seq<T>, dims: seq<nat>, rel: seq<nat>, wd: seq<nat>, key: seq<nat>,
                     offsetData: int, offsetTarget: int)
    modifies buf
    requires Fits(rel, wd, dims) && RowKey(key, wd)
    requires |src| >= Product(wd) && buf.Length >= Product(dims)
    requires offsetData == Offset(key, wd) && offsetTarget == Offset(Add(rel, key), dims)
    requires PutDoneBelow(buf[..], prior, src, dims, rel, wd, offsetData)
    ensures PutDoneBelow(buf[..], prior, src, dims, rel, wd, offsetData + wd[0])
  {
    if wd[0] > 0 {
      ghost var t := buf[..];
      RowBounds(rel, wd, dims, key);
      CopyRun(buf, offsetTarget, src, offsetData, wd[0]);
      PutRowWritten(t, buf[..], src, dims, rel, wd, key);
      PutRowKept(t, buf[..], prior, src, dims, rel, wd, key);
    }
  }

  /** The copying loop of gridPatch_putWindowedData for a 2-D patch. */
  method PutRows2<T>(buf: array<T>, ghost prior: seq<T>, src: seq<T>, dims: seq<nat>, rel: seq<nat>, wd: seq<nat>)
    modifies buf
    requires |dims| == 2 && Fits(rel, wd, dims) && buf.Length >= Product(dims) && |src| >= Product(wd)
    requires buf[..] == prior
    ensures PutDoneBelow(buf[..], prior, src, dims, rel, wd, Product(wd))
  {
    PutStart(prior, src, dims, rel, wd);
    var offsetData := 0;
    var offsetTarget := rel[0] + rel[1] * dims[0];
    var j := 0;
    while j < wd[1]
      invariant j <= wd[1]
      invariant offsetData == j * wd[0]
      invariant offsetTarget == rel[0] + (rel[1] + j) * dims[0]
      invariant PutDoneBelow(buf[..], prior, src, dims, rel, wd, offsetData)
    {
      RowOffsets2(rel, wd, dims, j);
      PutRowIn(buf, prior, src, dims, rel, wd, [0, j], offsetData, offsetTarget);
      RowStep(rel[0], rel[1], j, dims[0], wd[0]);
      offsetData := offsetData + wd[0];
      offsetTarget := offsetTarget + dims[0];
      j := j + 1;
    }
    CellCount2(wd);
  }

  /** The inner loop of gridPatch_putWindowedData for a 3-D patch: the
    * rows of slab `k` of the window. */
  method PutSlab3<T>(buf: array<T>, ghost prior: seq<T>, src: seq<T>, dims: seq<nat>, rel: seq<nat>, wd: seq<nat>, k: nat,
                     offsetData0: int) returns (offsetData: int)
    modifies buf
    requires |dims| == 3 && Fits(rel, wd, dims) && buf.Length >= Product(dims) && |src| >= Product(wd) && k < wd[2]
    requires offsetData0 == (k * wd[1]) * wd[0]
    requires PutDoneBelow(buf[..], prior, src, dims, rel, wd, offsetData0)
    ensures offsetData == ((k + 1) * wd[1]) * wd[0]
    ensures PutDoneBelow(buf[..], prior, src, dims, rel, wd, offsetData)
  {
    offsetData := offsetData0;
    var offsetTarget := rel[0] + rel[1] * dims[0] + (rel[2] + k) * dims[0] * dims[1];
    SlabStart(rel[0], rel[1], rel[2] + k, dims[0], dims[1]);
    var j := 0;
    while j < wd[1]
      invariant j <= wd[1]
      invariant offsetData == (j + k * wd[1]) * wd[0]
      invariant offsetTarget == rel[0] + (rel[1] + j + (rel[2] + k) * dims[1]) * dims[0]
      invariant PutDoneBelow(buf[..], prior, src, dims, rel, wd, offsetData)
    {
      offsetData, offsetTarget := PutSlabRow(buf, prior, src, dims, rel, wd, j, k, offsetData, offsetTarget);
      j := j + 1;
    }
    SlabAdvance(k, wd[1], wd[0]);
  }

  /** One row of the 3-D write-back loop, with the offset updates. */
  method PutSlabRow<T>(buf: array<T>, ghost prior: seq<T>, src: seq<T>, dims: seq<nat>, rel: seq<nat>, wd: seq<nat>,
                       j: nat, k: nat, offsetData: int, offsetTarget: int) returns (nextData: int, nextTarget: int)
    modifies buf
    requires |dims| == 3 && Fits(rel, wd, dims) && buf.Length >= Product(dims) && |src| >= Product(wd)
    requires j < wd[1] && k < wd[2]
    requires offsetData == (j + k * wd[1]) * wd[0]
    requires offsetTarget == rel[0] + (rel[1] + j + (rel[2] + k) * dims[1]) * dims[0]
    requires PutDoneBelow(buf[..], prior, src, dims, rel, wd, offsetData)
    ensures nextData == (j + 1 + k * wd[1]) * wd[0]
    ensures nextTarget == rel[0] + (rel[1] + (j + 1) + (rel[2] + k) * dims[1]) * dims[0]
    ensures PutDoneBelow(buf[..], prior, src, dims, rel, wd, nextData)
  {
    RowOffsets3(rel, wd, dims, j, k);
    PutRowIn(buf, prior, src, dims, rel, wd, [0, j, k], offsetData, offsetTarget);
    NextRow(j, k * wd[1], wd[0]);
    NextRow(rel[1] + j, (rel[2] + k) * dims[1], dims[0]);
    nextData := offsetData + wd[0];
    nextTarget := offsetTarget + dims[0];
  }

  /** The copying loops of gridPatch_putWindowedData for a 3-D patch. */
  method PutRows3<T>(buf: array<T>, ghost prior: seq<T>, src: seq<T>, dims: seq<nat>, rel: seq<nat>, wd: seq<nat>)
    modifies buf
    requires |dims| == 3 && Fits(rel, wd, dims) && buf.Length >= Product(dims) && |src| >= Product(wd)
    requires buf[..] == prior
    ensures PutDoneBelow(buf[..], prior, src, dims, rel, wd, Product(wd))
  {
    PutStart(prior, src, dims, rel, wd);
    var offsetData := 0;
    var k := 0;
    while k < wd[2]
      invariant k <= wd[2]
      invariant offsetData == (k * wd[1]) * wd[0]
      invariant PutDoneBelow(buf[..], prior, src, dims, rel, wd, offsetData)
    {
      offsetData := PutSlab3(buf, prior, src, dims, rel, wd, k, offsetData);
      k := k + 1;
    }
    CellCount3(wd);
  }

  /** gridPatch_putWindowedData's copy: the buffer `data` with its window
    * overwritten, row by row, by `src`. */
  method PutWindow<T>(data: seq<T>, src: seq<T>, dims: seq<nat>, rel: seq<nat>, wd: seq<nat>) returns (target: seq<T>)
    requires |dims| == 2 || |dims| == 3
    requires Fits(rel, wd, dims) && |data| >= Product(dims) && |src| >= Product(wd)
    ensures IsWindowPut(target, data, src, dims, rel, wd)
  {
    var buf := new T[|data|](i requires 0 <= i < |data| => data[i]);
    assert buf[..] == data;
    if |dims| == 2 {
      PutRows2(buf, data, src, dims, rel, wd);
    } else {
      PutRows3(buf, data, src, dims, rel, wd);
    }
    PutDone(buf[..], data, src, dims, rel, wd);
    target := buf[..];
  }
}
