# gridPatch: a verified model

This project models the grid patch of `src/libgrid/gridPatch.c`. A patch is a
box of grid cells. It is given by its lower corner `idxLo` and its extents
`dims`, with two or three axes.

For each attached variable, the patch keeps the variable's descriptor and
an optional data buffer. A buffer is laid out row-major with axis 0 varying
fastest. A variable with FFTW padding stores `2 * (dims[0] / 2 + 1)` cells on
axis 0.

The model covers:

- construction and deletion
- the dimension and cell-count accessors, with the padding rule
- the variable registry: attach, detach, handle lookup and lookup by descriptor
- the lazy buffer lifecycle: allocate, free, replace, pop and get-or-allocate
- axis transposition: the 2-D kernel and the three 3-D kernels (102, 210, 021)
- windowed copy-out and copy-in
- the distance vector from a point to the patch, with periodic wrap

Each kernel and each copy loop is an imperative method over an `array`. It
is proved against a pointwise specification:

- `Transpose.IsTransposition`: element `k` of the result is element
  `Swap(k, a, b)` of the input.
- `Window.IsWindowCopy`: window cell `k` is patch cell `rel + k`.
- `Window.IsWindowPut`: the window holds the source, and every other cell
  is unchanged.

The patch is a class, `Patch.GridPatch`. Its fields mirror the C struct.
`Valid()` is the invariant that every method keeps: two or three axes,
positive extents, a cell count equal to their product, one buffer slot per
variable, and every allocated buffer sized by the padding rule.

The padding rule gives a stored extent of 6 for a logical extent of 5
(`Geometry.PaddingExample`). Windows step through a buffer with the logical
extent `dims[0]` as row stride, even for a padded variable, and the model
uses the same stride.

The model's modules:

- `Geometry`: extents, cell counts, row-major offsets, the padding rule
- `Transpose`: the transposition kernels and their specification
- `Window`: local_getWindowDims, the copy-out and copy-in loops, and their specification
- `Distance`: the per-axis distance and the squared norm
- `Patch`: the patch class and the properties that span several calls

## Model

| member | source | states |
|---|---|---|
| Patch.GridPatch.constructor | src/libgrid/gridPatch.c:169-189 | `dims[i] = hi[i] - lo[i] + 1` on every axis; `idxLo` is the lower corner; the cell count is the product of the extents; both lists are empty; the invariant holds |
| Patch.GridPatch.Delete | src/libgrid/gridPatch.c:191-211 | detaches every variable, leaving both lists empty and the geometry unchanged |
| Patch.GridPatch.GetOneDim | src/libgrid/gridPatch.c:213-220 | the logical extent of the axis; it is at least 1 |
| Patch.GridPatch.GetDimActual1D | src/libgrid/gridPatch.c:222-240 | stored extent of one axis: equal to the logical one except on axis 0 of a padded variable, where it is the smallest even number above `dims[0]`, at most `dims[0] + 2` |
| Patch.GridPatch.GetDims | src/libgrid/gridPatch.c:242-250 | the extents, one per axis, all positive |
| Patch.GridPatch.GetDimsActual | src/libgrid/gridPatch.c:252-263 | entry by entry the stored extents given by GetDimActual1D |
| Patch.GridPatch.GetNumCells | src/libgrid/gridPatch.c:265-271 | the product of the extents, at least 1 |
| Patch.GridPatch.GetNumCellsActual | src/libgrid/gridPatch.c:273-285 | the loop's product is the stored cell count: equal to the logical count for an unpadded variable, strictly larger for a padded one |
| Patch.GridPatch.GetIdxLo | src/libgrid/gridPatch.c:287-294 | the lower corner, one entry per axis |
| Patch.GridPatch.AttachVar | src/libgrid/gridPatch.c:296-314 | appends the descriptor and an empty slot in step, returns the new position, leaves the geometry unchanged |
| Patch.GridPatch.DetachVar | src/libgrid/gridPatch.c:316-326 | returns the descriptor at the position and removes it and its slot from both lists, keeping them aligned; the buffer is released |
| Patch.GridPatch.AllocateVarData | src/libgrid/gridPatch.c:328-350 | an existing buffer is returned unchanged; an empty slot gets a buffer of the variable's stored cell count; only this slot changes |
| Patch.GridPatch.FreeVarData | src/libgrid/gridPatch.c:352-365 | empties exactly the named slot |
| Patch.GridPatch.ReplaceVarData | src/libgrid/gridPatch.c:367-381 | installs the new buffer in exactly the named slot |
| Patch.GridPatch.PopVarData | src/libgrid/gridPatch.c:383-391 | returns the slot's previous content (none if it was empty) and empties exactly that slot |
| Patch.GridPatch.GetVarHandle | src/libgrid/gridPatch.c:393-399 | the descriptor at the position |
| Patch.GridPatch.GetVarDataHandle | src/libgrid/gridPatch.c:401-415 | get-or-allocate: an existing buffer is returned unchanged, otherwise one of the stored size is installed; only this slot changes |
| Patch.GridPatch.GetVarDataHandleByVar | src/libgrid/gridPatch.c:417-433 | none exactly when the descriptor is not attached, and then nothing changes; otherwise the buffer of its first occurrence, allocated on first use, with no other slot touched |
| Patch.FindVar | src/libgrid/gridPatch.c:424-431 | none exactly when the descriptor is absent; otherwise the first position holding it |
| Patch.FirstUnique | src/libgrid/gridPatch.c:424-431 | the first occurrence of a descriptor is unique, so the lookup is determined |
| Patch.GridPatch.GetNumVars | src/libgrid/gridPatch.c:435-441 | the number of attached variables, equal to the number of slots |
| Patch.GridPatch.TransposeVar | src/libgrid/gridPatch.c:642-681 | allocates if needed, then replaces the variable's buffer by its transposition in the stored extents with axes a and b exchanged; other slots are untouched |
| Patch.GridPatch.Transpose | src/libgrid/gridPatch.c:443-467 | every buffer becomes the transposition of the one it replaces, in the new extents; the lower corner and the extents have axes a and b exchanged; the cell count and the variables are unchanged; the invariant holds |
| Patch.TransposeTwice | src/libgrid/gridPatch.c:443-467 | transposing twice with the same axes restores the lower corner, the extents and every buffer that was allocated |
| Patch.GridPatch.GetWindowedDataCopy | src/libgrid/gridPatch.c:469-532 | the copy is the window [lo, hi] read pointwise from the buffer, packed row-major in the window's extents; its length is the returned count, the product of `hi - lo + 1`; only lazy allocation changes the patch |
| Patch.GridPatch.PutWindowedData | src/libgrid/gridPatch.c:534-591 | every window cell receives the matching element of the source; on an allocated buffer, every cell outside the window keeps its value; other slots are untouched |
| Patch.PutThenCopy | src/libgrid/gridPatch.c:469-591 | writing a window and then reading it back yields the first cells of what was written, also on a slot that held no data before the write (the write allocates it) |
| Patch.AttachThenDetach | src/libgrid/gridPatch.c:296-326 | detaching the variable just attached restores both lists |
| Patch.AllocateTwice | src/libgrid/gridPatch.c:328-350 | a second allocation returns the same buffer and changes nothing more |
| Patch.GridPatch.CalcDistanceVector | src/libgrid/gridPatch.c:593-638 | each component is the per-axis distance; the squared norm is the sum of the squared components; the norm is zero exactly when the point lies inside the patch |
| Geometry.PaddingRule | src/libgrid/gridPatch.c:233-236 | only axis 0 of a padded variable differs from the logical extent; there it is even and in `(dims[0], dims[0] + 2]` |
| Geometry.PaddingExample | src/libgrid/gridPatch_tests.c:303-317 | a padded variable on a 5 x 5 x 5 patch stores 6 x 5 x 5 = 150 cells |
| Geometry.ActualCellCount | src/libgrid/gridPatch.c:273-285 | the stored cell count equals the logical count without padding and exceeds it with padding |
| Geometry.ActualDimsSwap | src/libgrid/gridPatch.c:655-660 | exchanging two axes other than axis 0, or any two axes of an unpadded variable, commutes with the padding rule |
| Geometry.OffsetInjective | src/libgrid/gridPatch.c:696-697 | distinct in-box coordinates have distinct row-major offsets |
| Transpose.Transpose2d | src/libgrid/gridPatch.c:684-701 | the result is the transposition of the input with axes 0 and 1 exchanged |
| Transpose.Transpose102 | src/libgrid/gridPatch.c:704-726 | the result is the transposition of the 3-D input with axes 0 and 1 exchanged |
| Transpose.Transpose210 | src/libgrid/gridPatch.c:728-750 | the result is the transposition of the 3-D input with axes 0 and 2 exchanged |
| Transpose.Transpose021 | src/libgrid/gridPatch.c:752-772 | the result is the transposition of the 3-D input with axes 1 and 2 exchanged, copied one contiguous axis-0 row at a time |
| Transpose.Element2 | src/libgrid/gridPatch.c:696-697 | the 2-D kernel's write and read offsets are the row-major offsets of `k` in the new extents and of the swapped `k` in the old extents |
| Transpose.Element3 | src/libgrid/gridPatch.c:718 | the 3-D kernels' write offset is the row-major offset of `k` in the new extents |
| Transpose.Source102 | src/libgrid/gridPatch.c:719 | the 102 kernel's read offset is the offset of the swapped coordinates in the swapped extents |
| Transpose.Source210 | src/libgrid/gridPatch.c:743 | the 210 kernel's read offset is the offset of the swapped coordinates in the swapped extents |
| Transpose.Source021 | src/libgrid/gridPatch.c:765-766 | the 021 kernel's row start is the offset of the swapped row in the swapped extents |
| Transpose.TranspositionUnique | src/libgrid/gridPatch.c:642-681 | a transposition of a buffer is unique |
| Transpose.TransposeInvolution | src/libgrid/gridPatch.c:443-467 | transposing the transposition with the same axes, in the swapped extents, gives back the original buffer |
| Transpose.TranspositionSymmetric | src/libgrid/gridPatch.c:669-677 | the order in which the two axes are named does not matter, so each kernel serves both orders |
| Transpose.TranspositionCovers | src/libgrid/gridPatch.c:684-772 | transposition loses and invents no element: every input element occurs in the result and the result holds nothing else |
| Window.WindowDims | src/libgrid/gridPatch.c:776-791 | the window's extents are `hi - lo + 1` per axis and the count is their product |
| Window.CopyWindowOut | src/libgrid/gridPatch.c:499-525 | the packed buffer holds, at window offset `k`, the patch cell `rel + k` |
| Window.PutWindow | src/libgrid/gridPatch.c:563-590 | the window cells hold the source's window elements and every other cell keeps its value |
| Window.RowOffsets2 | src/libgrid/gridPatch.c:503-511 | the 2-D loops' copy and data offsets are the row-major offsets of row `j` in the window and in the patch |
| Window.RowOffsets3 | src/libgrid/gridPatch.c:513-524 | the 3-D loops' data offset is the row-major offset in the patch of row `(j, k)` of the window |
| Window.InPatch | src/libgrid/gridPatch.c:486-494 | a window within the asserted bounds maps every window cell to a cell of the patch |
| Window.WindowCopyUnique | src/libgrid/gridPatch.c:469-532 | the windowed copy of a buffer is unique |
| Window.CopyAfterPut | src/libgrid/gridPatch.c:469-591 | reading back a window just written yields the first cells of the source |
| Window.PutOfCopy | src/libgrid/gridPatch.c:469-591 | writing back a window's own copy leaves the buffer unchanged |
| Window.PutIdempotent | src/libgrid/gridPatch.c:534-591 | writing the same window twice has the effect of writing it once |
| Window.WholeWindow | src/libgrid/gridPatch.c:469-532 | the window spanning the whole patch is the buffer's first `numCells` cells |
| Distance.DistanceVector | src/libgrid/gridPatch.c:603-635 | the loop over the axes: component `i` is the distance along axis `i`, the accumulated value is the sum of the squared components, and it is zero exactly when the point lies inside the box on every axis |
| Distance.AxisDistance | src/libgrid/gridPatch.c:605-632 | one axis of the distance loop: the signed offset to the box, replaced on a periodic axis by the wrap-around offset in the opposite direction only when that is strictly smaller, so on a periodic axis its magnitude is at most half of the period less the box width |
| Distance.DirectDistance | src/libgrid/gridPatch.c:605-612 | without a period, the component is the offset to the nearest box cell: 0 inside, `lo - p` below, `-(p - hi)` above |
| Distance.MinimumImage | src/libgrid/gridPatch.c:613-629 | with a period, the component is the offset from the point or from one of its two neighbouring images, and no image of the point is closer to the box |
| Distance.TieKeepsDirect | src/libgrid/gridPatch.c:613-629 | the wrap-around distance replaces the direct one only when strictly smaller, with the opposite sign; on a tie the direct distance is kept |
| Distance.AxisZero | src/libgrid/gridPatch.c:605-631 | a component is zero exactly when the point lies within the box on that axis, with or without a period |
| Distance.SumSquaresZero | src/libgrid/gridPatch.c:633-637 | the squared norm is zero exactly when every component is zero |
| Distance.ExamplesDirect | src/libgrid/gridPatch_tests.c:1083-1120 | box [3, 7] without a period: points 5, 0, 8 and 31 give 0, 3, -1 and -24 |
| Distance.ExamplesPeriodic | src/libgrid/gridPatch_tests.c:1124-1152 | box [3, 7] with period 32: points 31, 11 and 21 give 4, -4 and -14; with period 8: points 1 and 0 give 2 and -1 |
| Distance.ExamplesVectorBelow | src/libgrid/gridPatch_tests.c:1070-1099 | box [3, 7]³ without a period: point (5, 5, 5) gives distance (0, 0, 0) and norm 0; point (0, 5, 5) gives (3, 0, 0) and squared norm 9 |
| Distance.ExamplesVectorAbove | src/libgrid/gridPatch_tests.c:1101-1121 | same box: points (8, 5, 5) and (31, 5, 5) give (-1, 0, 0) and (-24, 0, 0), squared norms 1 and 576 |
| Distance.ExamplesVectorPeriodic | src/libgrid/gridPatch_tests.c:1123-1131 | same box with period 32 on every axis: point (31, 5, 5) gives (4, 0, 0), squared norm 16 |
| Distance.SumSquares3 | src/libgrid/gridPatch.c:633-637 | the squared norm of a three-component vector is the sum of the squares of its components |

## Left out

- Buffers are values (`seq`). The source hands out pointers to buffers that callers then write through; aliasing and in-place update through those pointers are not modelled.
- Element size, `memcpy` by bytes and `dataVar_getMemory` are not modelled. Element types are a type parameter, and one copied element stands for `size` bytes.
- A freshly allocated buffer has unspecified contents, as with `malloc`.
- Releasing memory, reference counting of descriptors (`dataVar_getRef`, `dataVar_del`) and memory accounting are not modelled.
- The descriptor type itself is external. It is modelled by an identity and its padding flag; lookup compares identities.
- The `diediedie` on misaligned lists in gridPatch_attachVar cannot happen here, because `Valid()` keeps the lists aligned.
- The 32- and 64-bit widths of extents, cell counts and offsets are not modelled, so wrap-around on overflow is excluded.
- The norm is returned squared (`normSq`), because `sqrt` and `double` rounding are not modelled.
- OpenMP parallel loops are modelled as sequential loops. The iterations write disjoint cells, so the result is the same.
- The compile-time NDIM is modelled as the length of `dims`, fixed at construction to 2 or 3.
- Patch.GridPatch.Transpose: requires `a != b`. With equal axes, the 2-D kernel still exchanges axes 0 and 1 while the extents stay the same, and in 3-D no kernel runs, so the buffer is replaced by uninitialised memory.
- Patch.GridPatch.Transpose: requires every padded variable to keep axis 0 in place (`a != 0 && b != 0`). The source transposes a padded buffer in its padded extents and then re-applies the padding rule to the new axis 0, so the stored layout no longer matches the padded extents.
- Patch.GridPatch.GetWindowedDataCopy: requires `lo <= hi + 1` per axis, which the source does not check. A larger `lo` makes the unsigned extent wrap around. The same requirement applies to Patch.GridPatch.PutWindowedData.
- Patch.GridPatch.PutWindowedData: on a slot that was empty, only the window is specified. The rest of the newly allocated buffer holds whatever allocation left there.
- Patch.GridPatch.CalcDistanceVector: on a periodic axis, requires `idxLo + dims - 1 < period`, so that the unsigned `tmp` cannot wrap. It also requires `point < period`, which the source asserts.
