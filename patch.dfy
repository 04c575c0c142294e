/**
 * The grid patch of gridPatch.c: a box of grid cells [idxLo, idxLo + dims)
 * together with a list of attached variables and, per variable, an
 * optional data buffer laid out row-major with axis 0 fastest.
 *
 * Buffers are modelled as values (`seq<T>`); a buffer handed out by an
 * accessor is a copy of the stored value, not an alias of it.
 */
module Patch {
  import opened Wrappers
  import opened Geometry
  import opened Transpose
  import opened Window
  import opened Distance

  /** A variable descriptor.  `id` stands for the identity of the handle
    * (the source compares handles by address); `padded` says whether the
    * variable's buffers carry FFTW padding on axis 0. */
  datatype DataVar = DataVar(id: nat, padded: bool)

  /** Number of stored cells of a variable's buffer on a patch of extents
    * `dims` (gridPatch_getNumCellsActual). */
  function CellsActual(dims: seq<nat>, v: DataVar): nat
  {
    Product(ActualDims(dims, v.padded))
  }

  /** Position `p` holds the first occurrence of `v`. */
  predicate IsFirst(vars: seq<DataVar>, v: DataVar, p: nat)
  {
    p < |vars| && vars[p] == v && v !in vars[..p]
  }

  /** The first occurrence is unique. */
  lemma FirstUnique(vars: seq<DataVar>, v: DataVar, p: nat, q: nat)
    requires IsFirst(vars, v, p) && IsFirst(vars, v, q)
    ensures p == q
  {
    if p < q {
      InPrefix(vars, p, q);
      assert false;
    } else if q < p {
      InPrefix(vars, q, p);
      assert false;
    }
  }

  lemma InPrefix<X>(s: seq<X>, j: nat, n: nat)
    requires j < n <= |s|
    ensures s[j] in s[..n]
  {
    assert s[..n][j] == s[j];
  }

  /** The search loop of gridPatch_getVarDataHandleByVar: the position of
    * the first descriptor identical to `v`, or none. */
  method FindVar(vars: seq<DataVar>, v: DataVar) returns (pos: Option<nat>)
    ensures pos.None? <==> v !in vars
    ensures pos.Some? ==> IsFirst(vars, v, pos.value)
  {
    var p := 0;
    while p < |vars|
      invariant 0 <= p <= |vars| && v !in vars[..p]
    {
      if vars[p] == v {
        return Some(p);
      }
      assert vars[..p + 1] == vars[..p] + [vars[p]];
      p := p + 1;
    }
    assert vars[..p] == vars;
    return None;
  }

  class GridPatch<T(0)> {
    var idxLo: seq<nat>
    var dims: seq<nat>
    var numCells: nat
    var vars: seq<DataVar>
    var varData: seq<Option<seq<T>>>

    /** Two or three axes, positive extents, a cell count that matches
      * them, one buffer slot per variable, and every allocated buffer
      * sized by the padding rule. */
    ghost predicate Valid()
      reads this
    {
      && (|dims| == 2 || |dims| == 3) && |idxLo| == |dims|
      && Positive(dims) && numCells == Product(dims)
      && |varData| == |vars|
      && forall i :: 0 <= i < |vars| && varData[i].Some? ==> |varData[i].value| == CellsActual(dims, vars[i])
    }

    /** gridPatch_new: the patch covering [lo, hi] with no variables. */
    constructor (lo: seq<nat>, hi: seq<nat>)
      requires |lo| == |hi| && (|lo| == 2 || |lo| == 3)
      requires forall i :: 0 <= i < |lo| ==> lo[i] <= hi[i]
      ensures Valid()
      ensures idxLo == lo && |dims| == |lo|
      ensures forall i :: 0 <= i < |lo| ==> lo[i] + dims[i] == hi[i] + 1
      ensures numCells == Product(dims)
      ensures vars == [] && varData == []
    {
      var d: seq<nat> := [];
      var n: nat := 1;
      var i := 0;
      while i < |lo|
        invariant 0 <= i <= |lo| && |d| == i
        invariant forall j :: 0 <= j < i ==> lo[j] + d[j] == hi[j] + 1
        invariant n == Product(d)
      {
        ProductAppend(d, hi[i] - lo[i] + 1);
        n := n * (hi[i] - lo[i] + 1);
        d := d + [hi[i] - lo[i] + 1];
        i := i + 1;
      }
      idxLo := lo;
      dims := d;
      numCells := n;
      vars := [];
      varData := [];
    }

    /** gridPatch_del: detach every variable, freeing its buffer. */
    method Delete()
      modifies this
      requires Valid()
      ensures Valid() && vars == [] && varData == []
      ensures idxLo == old(idxLo) && dims == old(dims) && numCells == old(numCells)
    {
      var n := |varData|;
      var i := 0;
      while i < n
        invariant 0 <= i <= n && |vars| == n - i
        invariant Valid() && idxLo == old(idxLo) && dims == old(dims) && numCells == old(numCells)
      {
        var _ := DetachVar(0);
        i := i + 1;
      }
    }

    // -------------------------------------------------------------------
    // Geometry

    /** gridPatch_getOneDim */
    function GetOneDim(axis: nat): (r: nat)
      reads this
      requires Valid() && axis < |dims|
      ensures r == dims[axis] && r >= 1
    {
      dims[axis]
    }

    /** gridPatch_getDimActual1D: the stored extent of one axis of a
      * variable's buffer. */
    function GetDimActual1D(i: nat, axis: nat): (r: nat)
      reads this
      requires Valid() && i < |vars| && axis < |dims|
      ensures !vars[i].padded || axis != 0 ==> r == dims[axis]
      ensures vars[i].padded && axis == 0 ==> r % 2 == 0 && dims[0] < r <= dims[0] + 2
    {
      ActualDim(dims, vars[i].padded, axis)
    }

    /** gridPatch_getDims */
    function GetDims(): (r: seq<nat>)
      reads this
      requires Valid()
      ensures r == dims && |r| == |idxLo| && Positive(r)
    {
      dims
    }

    /** gridPatch_getDimsActual: every stored extent of a variable. */
    function GetDimsActual(i: nat): (r: seq<nat>)
      reads this
      requires Valid() && i < |vars|
      ensures |r| == |dims| && forall axis :: 0 <= axis < |dims| ==> r[axis] == GetDimActual1D(i, axis)
    {
      ActualDims(dims, vars[i].padded)
    }

    /** gridPatch_getNumCells */
    function GetNumCells(): (r: nat)
      reads this
      requires Valid()
      ensures r == Product(dims) && r >= 1
    {
      ProductPositive(dims);
      numCells
    }

    /** gridPatch_getNumCellsActual: the product of the stored extents;
      * the logical cell count for an unpadded variable, more for a
      * padded one. */
    method GetNumCellsActual(i: nat) returns (n: nat)
      requires Valid() && i < |vars|
      ensures n == CellsActual(dims, vars[i])
      ensures !vars[i].padded ==> n == numCells
      ensures vars[i].padded ==> n > numCells
    {
      ghost var act := GetDimsActual(i);
      n := 1;
      var axis := 0;
      while axis < |dims|
        invariant 0 <= axis <= |dims|
        invariant n == Product(act[..axis])
      {
        ProductAppend(act[..axis], act[axis]);
        assert act[..axis + 1] == act[..axis] + [act[axis]];
        n := n * GetDimActual1D(i, axis);
        axis := axis + 1;
      }
      assert act[..|dims|] == act;
      ActualCellCount(dims, vars[i].padded);
    }

    /** gridPatch_getIdxLo */
    function GetIdxLo(): (r: seq<nat>)
      reads this
      requires Valid()
      ensures r == idxLo && |r| == |dims|
    {
      idxLo
    }

    // -------------------------------------------------------------------
    // Variables

    /** gridPatch_getNumVars */
    function GetNumVars(): (r: nat)
      reads this
      requires Valid()
      ensures r == |vars| && r == |varData|
    {
      |vars|
    }

    /** gridPatch_getVarHandle */
    function GetVarHandle(i: nat): (r: DataVar)
      reads this
      requires Valid() && i < |vars|
      ensures r == vars[i] && r in vars
    {
      vars[i]
    }

    /** gridPatch_attachVar: append the descriptor with an empty buffer
      * slot and return its position. */
    method AttachVar(v: DataVar) returns (pos: nat)
      modifies this
      requires Valid()
      ensures Valid()
      ensures idxLo == old(idxLo) && dims == old(dims) && numCells == old(numCells)
      ensures pos == |old(vars)| && vars == old(vars) + [v] && varData == old(varData) + [None]
    {
      pos := |vars|;
      vars := vars + [v];
      varData := varData + [None];
    }

    /** gridPatch_detachVar: free the variable's buffer, remove both
      * entries and return the descriptor. */
    method DetachVar(i: nat) returns (v: DataVar)
      modifies this
      requires Valid() && i < |vars|
      ensures Valid()
      ensures idxLo == old(idxLo) && dims == old(dims) && numCells == old(numCells)
      ensures v == old(vars)[i]
      ensures vars == old(vars)[..i] + old(vars)[i + 1..]
      ensures varData == old(varData)[..i] + old(varData)[i + 1..]
    {
      FreeVarData(i);
      varData := varData[..i] + varData[i + 1..];
      v := vars[i];
      vars := vars[..i] + vars[i + 1..];
      assert forall j :: 0 <= j < |vars| ==> vars[j] == old(vars)[if j < i then j else j + 1];
      assert forall j :: 0 <= j < |vars| ==> varData[j] == old(varData)[if j < i then j else j + 1];
    }

    // -------------------------------------------------------------------
    // Buffers

    /** gridPatch_allocateVarData: install a buffer of the variable's
      * stored size if the slot is empty; return the slot's buffer.  A new
      * buffer's contents are unspecified, as from malloc. */
    method AllocateVarData(i: nat) returns (data: seq<T>)
      modifies this
      requires Valid() && i < |vars|
      ensures Valid()
      ensures idxLo == old(idxLo) && dims == old(dims) && numCells == old(numCells) && vars == old(vars)
      ensures varData == old(varData)[i := Some(data)]
      ensures old(varData)[i].Some? ==> data == old(varData)[i].value
      ensures |data| == CellsActual(dims, vars[i])
    {
      if varData[i].Some? {
        data := varData[i].value;
      } else {
        var n := GetNumCellsActual(i);
        var memory := new T[n];
        data := memory[..];
        varData := varData[i := Some(data)];
      }
    }

    /** gridPatch_freeVarData: empty the slot, releasing its buffer. */
    method FreeVarData(i: nat)
      modifies this
      requires Valid() && i < |vars|
      ensures Valid()
      ensures idxLo == old(idxLo) && dims == old(dims) && numCells == old(numCells) && vars == old(vars)
      ensures varData == old(varData)[i := None]
    {
      varData := varData[i := None];
    }

    /** gridPatch_replaceVarData: install a buffer in the slot, releasing
      * the previous one. */
    method ReplaceVarData(i: nat, newData: seq<T>)
      modifies this
      requires Valid() && i < |vars|
      requires |newData| == CellsActual(dims, vars[i])
      ensures Valid()
      ensures idxLo == old(idxLo) && dims == old(dims) && numCells == old(numCells) && vars == old(vars)
      ensures varData == old(varData)[i := Some(newData)]
    {
      varData := varData[i := Some(newData)];
    }

    /** gridPatch_popVarData: empty the slot and hand its buffer to the
      * caller instead of releasing it. */
    method PopVarData(i: nat) returns (data: Option<seq<T>>)
      modifies this
      requires Valid() && i < |vars|
      ensures Valid()
      ensures idxLo == old(idxLo) && dims == old(dims) && numCells == old(numCells) && vars == old(vars)
      ensures data == old(varData)[i]
      ensures varData == old(varData)[i := None]
    {
      data := varData[i];
      varData := varData[i := None];
    }

    /** gridPatch_getVarDataHandle: the slot's buffer, allocated on first
      * use. */
    method GetVarDataHandle(i: nat) returns (data: seq<T>)
      modifies this
      requires Valid() && i < |vars|
      ensures Valid()
      ensures idxLo == old(idxLo) && dims == old(dims) && numCells == old(numCells) && vars == old(vars)
      ensures varData == old(varData)[i := Some(data)]
      ensures old(varData)[i].Some? ==> data == old(varData)[i].value
      ensures |data| == CellsActual(dims, vars[i])
    {
      if varData[i].Some? {
        data := varData[i].value;
      } else {
        data := AllocateVarData(i);
      }
    }

    /** gridPatch_getVarDataHandleByVar: the buffer of the first variable
      * identical to `v` (allocated on first use), or none if `v` is not
      * attached. */
    method GetVarDataHandleByVar(v: DataVar) returns (data: Option<seq<T>>)
      modifies this
      requires Valid()
      ensures Valid()
      ensures idxLo == old(idxLo) && dims == old(dims) && numCells == old(numCells) && vars == old(vars)
      ensures data.None? <==> v !in vars
      ensures data.None? ==> varData == old(varData)
      ensures forall p: nat :: IsFirst(vars, v, p) ==>
        && data == varData[p]
        && varData == old(varData)[p := data]
        && (old(varData)[p].Some? ==> data == old(varData)[p])
    {
      var pos := FindVar(vars, v);
      if pos.None? {
        data := None;
      } else {
        var d := GetVarDataHandle(pos.value);
        data := Some(d);
        forall p: nat | IsFirst(vars, v, p)
          ensures p == pos.value
        {
          FirstUnique(vars, v, p, pos.value);
        }
      }
    }

    // -------------------------------------------------------------------
    // Transposition

    /** local_transposeVar: allocate the variable's buffer if needed, then
      * replace it by its transposition with axes `a` and `b` exchanged.
      * The patch's own extents are not touched here. */
    method TransposeVar(i: nat, a: nat, b: nat)
      modifies this
      requires Valid() && i < |vars| && a < |dims| && b < |dims| && a != b
      ensures Valid()
      ensures idxLo == old(idxLo) && dims == old(dims) && numCells == old(numCells) && vars == old(vars)
      ensures |varData| == |old(varData)|
      ensures forall j :: 0 <= j < |varData| && j != i ==> varData[j] == old(varData)[j]
      ensures varData[i].Some?
      ensures old(varData)[i].Some? ==>
        IsTransposition(varData[i].value, old(varData)[i].value, Swap(ActualDims(dims, vars[i].padded), a, b), a, b)
    {
      var data := GetVarDataHandle(i);
      var act := GetDimsActual(i);
      var dimsT := Swap(act, a, b);
      var numCellsActual := GetNumCellsActual(i);
      SwapTwice(act, a, b);
      SwapTwice(dimsT, a, b);
      ProductSwap(act, a, b);
      var dataT: seq<T>;
      if |dims| == 2 {
        dataT := Transpose2d(data, dimsT);
        TranspositionSymmetric(dataT, data, dimsT, 0, 1);
      } else if (a == 0 && b == 1) || (a == 1 && b == 0) {
        dataT := Transpose102(data, dimsT);
        TranspositionSymmetric(dataT, data, dimsT, 0, 1);
      } else if (a == 0 && b == 2) || (a == 2 && b == 0) {
        dataT := Transpose210(data, dimsT);
        TranspositionSymmetric(dataT, data, dimsT, 0, 2);
      } else {
        dataT := Transpose021(data, dimsT);
        TranspositionSymmetric(dataT, data, dimsT, 1, 2);
      }
      assert |dataT| == numCellsActual;
      ReplaceVarData(i, dataT);
    }

    /** gridPatch_transpose: transpose every variable's buffer, then
      * exchange the lower corner and the extents of axes `a` and `b`.
      * Each buffer ends up as the transposition of the one it replaces,
      * laid out for the new extents. */
    method Transpose(a: nat, b: nat)
      modifies this
      requires Valid() && a < |dims| && b < |dims| && a != b
      requires forall i :: 0 <= i < |vars| && vars[i].padded ==> a != 0 && b != 0
      ensures Valid()
      ensures idxLo == Swap(old(idxLo), a, b) && dims == Swap(old(dims), a, b) && numCells == old(numCells)
      ensures vars == old(vars) && |varData| == |old(varData)|
      ensures forall i :: 0 <= i < |vars| ==> varData[i].Some?
      ensures forall i :: 0 <= i < |vars| && old(varData)[i].Some? ==>
        IsTransposition(varData[i].value, old(varData)[i].value, ActualDims(dims, vars[i].padded), a, b)
    {
      var i := 0;
      while i < |vars|
        invariant 0 <= i <= |vars|
        invariant Valid() && idxLo == old(idxLo) && dims == old(dims) && numCells == old(numCells)
        invariant vars == old(vars) && |varData| == |old(varData)|
        invariant forall j :: i <= j < |vars| ==> varData[j] == old(varData)[j]
        invariant forall j :: 0 <= j < i ==> varData[j].Some?
        invariant forall j :: 0 <= j < i && old(varData)[j].Some? ==>
          IsTransposition(varData[j].value, old(varData)[j].value, Swap(ActualDims(dims, vars[j].padded), a, b), a, b)
      {
        TransposeVar(i, a, b);
        i := i + 1;
      }
      ghost var before := dims;
      idxLo := Swap(idxLo, a, b);
      dims := Swap(dims, a, b);
      ProductSwap(before, a, b);
      forall j | 0 <= j < |vars|
        ensures ActualDims(dims, vars[j].padded) == Swap(ActualDims(before, vars[j].padded), a, b)
        ensures CellsActual(dims, vars[j]) == CellsActual(before, vars[j])
      {
        ActualDimsSwap(before, vars[j].padded, a, b);
        ProductSwap(ActualDims(before, vars[j].padded), a, b);
      }
    }

    // -------------------------------------------------------------------
    // Windows

    /** The window [lo, hi] lies inside the patch; an empty window
      * (lo = hi + 1 on some axis) is allowed. */
    ghost predicate WindowInside(lo: seq<nat>, hi: seq<nat>)
      reads this
    {
      && |lo| == |hi| == |dims| == |idxLo|
      && forall ax :: 0 <= ax < |dims| ==> idxLo[ax] <= lo[ax] <= hi[ax] + 1 && hi[ax] < idxLo[ax] + dims[ax]
    }

    /** The window's position relative to the patch's lower corner. */
    ghost function WindowStart(lo: seq<nat>): seq<nat>
      reads this
      requires |lo| == |idxLo| && forall ax :: 0 <= ax < |lo| ==> idxLo[ax] <= lo[ax]
    {
      Sub(lo, idxLo)
    }

    /** gridPatch_getWindowedDataCopy: a fresh buffer holding the window
      * [lo, hi] of variable `i`, row-major in the window's own extents,
      * and its number of cells.  The variable's buffer is allocated on
      * first use. */
    method GetWindowedDataCopy(i: nat, lo: seq<nat>, hi: seq<nat>) returns (copy: seq<T>, num: nat)
      modifies this
      requires Valid() && i < |vars| && WindowInside(lo, hi)
      ensures Valid()
      ensures idxLo == old(idxLo) && dims == old(dims) && numCells == old(numCells) && vars == old(vars)
      ensures varData == old(varData)[i := varData[i]] && varData[i].Some?
      ensures old(varData)[i].Some? ==> varData[i] == old(varData)[i]
      ensures num == |copy| == Product(Extent(lo, hi))
      ensures IsWindowCopy(copy, varData[i].value, dims, WindowStart(lo), Extent(lo, hi))
    {
      var wd;
      wd, num := WindowDims(lo, hi);
      var data := GetVarDataHandle(i);
      var rel := Sub(lo, idxLo);
      ActualCellCount(dims, vars[i].padded);
      copy := CopyWindowOut(data, dims, rel, wd, num);
    }

    /** gridPatch_putWindowedData: overwrite the window [lo, hi] of
      * variable `i` with the first cells of `src`, read row-major in the
      * window's extents; every other cell keeps its value.  The
      * variable's buffer is allocated on first use. */
    method PutWindowedData(i: nat, lo: seq<nat>, hi: seq<nat>, src: seq<T>)
      modifies this
      requires Valid() && i < |vars| && WindowInside(lo, hi)
      requires |src| >= Product(Extent(lo, hi))
      ensures Valid()
      ensures idxLo == old(idxLo) && dims == old(dims) && numCells == old(numCells) && vars == old(vars)
      ensures varData == old(varData)[i := varData[i]] && varData[i].Some?
      ensures forall k :: InBox(k, Extent(lo, hi)) ==>
        PutAt(varData[i].value, src, dims, WindowStart(lo), Extent(lo, hi), k)
      ensures old(varData)[i].Some? ==>
        IsWindowPut(varData[i].value, old(varData)[i].value, src, dims, WindowStart(lo), Extent(lo, hi))
    {
      var wd, num := WindowDims(lo, hi);
      var dataTarget := GetVarDataHandle(i);
      var rel := Sub(lo, idxLo);
      ActualCellCount(dims, vars[i].padded);
      var target := PutWindow(dataTarget, src, dims, rel, wd);
      ReplaceVarData(i, target);
    }

    // -------------------------------------------------------------------
    // Distance

    /** gridPatch_calcDistanceVector: per axis the signed distance from
      * `point` to the patch (minimum image on periodic axes), and the
      * squared Euclidean norm of that vector. */
    method CalcDistanceVector(point: seq<nat>, periodic: Option<seq<nat>>) returns (dist: seq<int>, normSq: nat)
      requires Valid() && DistanceArgs(point, idxLo, dims, periodic)
      ensures |dist| == |point|
      ensures forall i :: 0 <= i < |point| ==>
        dist[i] == AxisDistance(point[i], idxLo[i], dims[i], PeriodOf(periodic, i))
      ensures normSq == SumSquares(dist)
      ensures normSq == 0 <==> forall i :: 0 <= i < |point| ==> idxLo[i] <= point[i] < idxLo[i] + dims[i]
    {
      dist, normSq := DistanceVector(point, idxLo, dims, periodic);
    }
  }

  // ---------------------------------------------------------------------
  // Properties that span several calls

  /** Detaching the variable just attached restores the patch. */
  method AttachThenDetach<T(0)>(patch: GridPatch<T>, v: DataVar)
    modifies patch
    requires patch.Valid()
    ensures patch.Valid()
    ensures patch.vars == old(patch.vars) && patch.varData == old(patch.varData)
  {
    var pos := patch.AttachVar(v);
    var w := patch.DetachVar(pos);
    assert w == v;
    assert old(patch.vars) + [v] == patch.vars + [v];
  }

  /** Allocation is idempotent: a second call returns the same buffer and
    * changes nothing. */
  method AllocateTwice<T(0)>(patch: GridPatch<T>, i: nat) returns (first: seq<T>, second: seq<T>)
    modifies patch
    requires patch.Valid() && i < |patch.vars|
    ensures patch.Valid()
    ensures second == first && patch.varData == old(patch.varData)[i := Some(first)]
  {
    first := patch.AllocateVarData(i);
    second := patch.AllocateVarData(i);
  }

  /** Transposing twice with the same axes restores the geometry and every
    * buffer that was allocated. */
  method TransposeTwice<T(0)>(patch: GridPatch<T>, a: nat, b: nat)
    modifies patch
    requires patch.Valid() && a < |patch.dims| && b < |patch.dims| && a != b
    requires forall i :: 0 <= i < |patch.vars| && patch.vars[i].padded ==> a != 0 && b != 0
    ensures patch.Valid()
    ensures patch.idxLo == old(patch.idxLo) && patch.dims == old(patch.dims) && patch.vars == old(patch.vars)
    ensures forall i :: 0 <= i < |patch.vars| && old(patch.varData)[i].Some? ==> patch.varData[i] == old(patch.varData)[i]
  {
    ghost var d0 := patch.dims;
    ghost var v0 := patch.varData;
    patch.Transpose(a, b);
    ghost var v1 := patch.varData;
    ghost var d1 := patch.dims;
    patch.Transpose(a, b);
    SwapTwice(d0, a, b);
    SwapTwice(old(patch.idxLo), a, b);
    forall i | 0 <= i < |patch.vars| && v0[i].Some?
      ensures patch.varData[i] == v0[i]
    {
      var p := patch.vars[i].padded;
      ActualDimsSwap(d1, p, a, b);
      TransposeInvolution(v0[i].value, v1[i].value, patch.varData[i].value, ActualDims(d1, p), a, b);
    }
  }

  /** Writing a window and reading it back yields what was written. */
  method PutThenCopy<T(0)>(patch: GridPatch<T>, i: nat, lo: seq<nat>, hi: seq<nat>, src: seq<T>)
      returns (copy: seq<T>)
    modifies patch
    requires patch.Valid() && i < |patch.vars| && patch.WindowInside(lo, hi)
    requires |src| >= Product(Extent(lo, hi))
    ensures copy == src[..Product(Extent(lo, hi))]
  {
    patch.PutWindowedData(i, lo, hi, src);
    ghost var written := patch.varData[i].value;
    var num;
    copy, num := patch.GetWindowedDataCopy(i, lo, hi);
    CopyAfterPut(written, src, copy, patch.dims, patch.WindowStart(lo), Extent(lo, hi));
  }
}
