# Tensors and grid storage, after PLUMED's `TensorGeneric` and `Grid`

This project is a Dafny model of two parts of PLUMED's toolbox.

- **`TensorGeneric<n,m>`** (`src/Tensor.h`). It is an n x m matrix of doubles stored row-major
  in a flat buffer `d[n*m]`, with entry (i, j) at `d[m*i+j]`. The header provides zeroing,
  in-place `+=`, `-=`, `*=` and `/=`, the unary and binary operators, `identity`, `transpose`,
  the 3 x 3 `determinant` and `inverse`, three nested-loop `matmul`s, the outer product
  `extProduct`, and the cross-product derivatives `dcrossDv1` and `dcrossDv2`.
- **`Grid` and `SparseGrid`** (`src/tools/Grid.h`). A grid is a lattice of `nbin_[k]` bins along
  each of `dimension_` axes, and each axis may be periodic. Every cell holds a value and a vector
  of `dimension_` derivatives. The dense `Grid` keeps every cell in `grid_` and `der_`. The
  `SparseGrid` keeps only written cells, in the maps `map_` and `der_`. Both classes convert
  between a flat cell index and the tuple of per-axis indices. Both enumerate the nearest
  neighbours of a cell, and both set, add and read cells.

Modules:

- `Radix` (`radix.dfy`): division and remainder facts for flat positions `cols*i + j`.
- `RealSeq` (`real_seq.dfy`): elementwise arithmetic on `seq<real>`, plus the least and greatest
  element.
- `TensorAlgebra` (`tensor_algebra.dfy`): what each tensor operation computes, as functions on
  the row-major entry sequence. It also holds the algebra of those functions: identity, inverse,
  transposition, skew-symmetry, and the `transpose` loop as written.
- `Tensors` (`tensor.dfy`): the class `Tensor` over an `array<real>`. Every looping operator is a
  method proved against `TensorAlgebra`.
- `GridIndex` (`grid_index.dfy`): the mixed-radix flat index, its inverse, and nearest
  neighbours.
- `GridStore` (`grid_store.dfy`): the dense and sparse stores as values, what each set or add
  does to them, and the proof that the two backings agree.
- `Grids` (`grid.dfy`): the classes `Grid` (over arrays) and `SparseGrid` (over maps). Their
  methods are proved against `GridStore`.

Reals stand for doubles. A tensor's shape is the pair of fields `rows` and `cols`, which the
constructor fixes. The flat cell index of a grid is row-major with the last axis varying
fastest: `index = i_0*nbin_1*...*nbin_{d-1} + ... + i_{d-1}`. `src/tools/Grid.h` does not fix this
ordering. The model adopts it and proves the bijection for it.

## Model

| member | source | states |
|---|---|---|
| Tensors.Tensor.constructor | src/Tensor.h:147-150 | The default constructor makes an n x m tensor whose n*m entries are all 0, in a fresh store. |
| Tensors.Tensor.Copy | src/Tensor.h:232 | The copy has the shape and the entries of the original, in a fresh store. |
| Tensors.Tensor.OfVectors | src/Tensor.h:152-155 | The outer-product constructor builds a \|v1\| x \|v2\| tensor whose entries are `ExtProduct(v1, v2)`. |
| TensorAlgebra.ExtProductEntry | src/Tensor.h:152-155 | Entry (i, j) of the outer product is v1[i] * v2[j] for every i < \|v1\|, j < \|v2\|. |
| TensorAlgebra.ExtProduct | src/Tensor.h:337-340 | `extProduct(v1, v2)` has \|v1\| * \|v2\| entries. Its entries are given by ExtProductEntry. |
| TensorAlgebra.ExtProductTransposed | src/Tensor.h:337-340 | Transposing the outer product of v1 and v2 gives the outer product of v2 and v1. |
| Tensors.Tensor.Of2x2 | src/Tensor.h:157-164 | The four arguments become the entries in C order: (0,0), (0,1), (1,0), (1,1). |
| Tensors.Tensor.Of3x3 | src/Tensor.h:166-178 | The nine arguments become the entries in C order. |
| TensorAlgebra.EntriesInCOrder | src/Tensor.h:166-178 | A 3 x 3 store lists entry (0,0), (0,1), (0,2), (1,0), ... (2,2) at positions 0 to 8. |
| Tensors.Tensor.Zero | src/Tensor.h:180-183 | `zero()` makes every one of the n*m entries 0. |
| Tensors.Tensor.Get | src/Tensor.h:190-193 | `t(i, j)` reads the entry at flat position cols*i + j. |
| Tensors.Tensor.Set | src/Tensor.h:185-188 | Writing through `t(i, j)` sets entry (i, j) and keeps every other entry. |
| TensorAlgebra.RowMajorLayout | src/Tensor.h:185-193 | For i < n and j < m, position m*i + j lies inside the n*m store. Division and remainder by m recover (i, j), and no other (r, c) shares the position. |
| Tensors.Tensor.AddAssign | src/Tensor.h:195-199 | `+=` makes each entry the old entry plus the matching entry of b, even when b is the tensor itself. |
| Tensors.Tensor.SubAssign | src/Tensor.h:201-205 | `-=` makes each entry the old entry minus the matching entry of b, even when b is the tensor itself. |
| RealSeq.DifferenceUndoesSum | src/Tensor.h:195-205 | Subtracting b after adding b gives the original entries back. |
| Tensors.Tensor.MulAssign | src/Tensor.h:207-211 | `*=` multiplies every entry by s. |
| Tensors.Tensor.DivAssign | src/Tensor.h:213-216 | `/=` multiplies every entry by 1/s. A following `*=` by s restores the old entries. |
| RealSeq.ScaledUndo | src/Tensor.h:213-216 | For s != 0, scaling by 1/s and scaling by s undo each other, in either order. |
| Tensors.Tensor.Positive | src/Tensor.h:218-221 | Unary `+` returns a fresh tensor with the same shape and entries. |
| Tensors.Tensor.Negative | src/Tensor.h:223-228 | Unary `-` returns a fresh tensor whose entries are the negated entries. |
| RealSeq.NegatedIsScaled | src/Tensor.h:223-228 | Negating every entry is the same as scaling by -1. |
| Tensors.Plus | src/Tensor.h:230-235 | `t1 + t2` is a fresh tensor holding the elementwise sum. The operands are untouched because the method modifies nothing that exists. |
| Tensors.Minus | src/Tensor.h:237-242 | `t1 - t2` is a fresh tensor holding the elementwise difference. The operands are untouched. |
| Tensors.Times | src/Tensor.h:244-249 | `t1 * s` is a fresh tensor holding every entry times s. |
| Tensors.TimesLeft | src/Tensor.h:251-254 | `s * t1` gives the same entries as `t1 * s`. |
| Tensors.Divide | src/Tensor.h:256-259 | `t1 / s` is `t1` scaled by 1/s. |
| TensorAlgebra.Det3 | src/Tensor.h:261-271 | `determinant()` is the six-term sum d0·d4·d8 + d1·d5·d6 + d2·d3·d7 − d0·d5·d7 − d1·d3·d8 − d2·d4·d6, and its contract proves that sum equal to the Laplace expansion along the first row, d0·(d4·d8 − d5·d7) − d1·(d3·d8 − d5·d6) + d2·(d3·d7 − d4·d6). |
| TensorAlgebra.DeterminantOfIdentity | src/Tensor.h:261-271 | The six-term determinant of the 3 x 3 identity is 1. |
| TensorAlgebra.DeterminantOfTranspose | src/Tensor.h:261-271 | The six-term determinant of a 3 x 3 tensor equals that of its transpose. |
| Tensors.IdentityTensor | src/Tensor.h:273-279 | `identity()` is n x n with 1 on the diagonal and 0 elsewhere. |
| TensorAlgebra.MatMulIdentityRight | src/Tensor.h:299-306 | For every n x m tensor a, `matmul(a, identity)` is a. |
| TensorAlgebra.MatMulIdentityLeft | src/Tensor.h:299-306 | For every n x m tensor a, `matmul(identity, a)` is a. |
| Tensors.Tensor.Transpose | src/Tensor.h:281-286 | The corrected `transpose()` returns a fresh m x n tensor whose entry (i, j) is entry (j, i) of the n x m original, for every shape. |
| TensorAlgebra.TransposeInvolution | src/Tensor.h:281-286 | Transposing twice gives the original n x m tensor back, for every n and m. |
| TensorAlgebra.TransposeAsWrittenOnlySquare | src/Tensor.h:281-286 | The loop as written (i < n, j < m, writing t(i, j) of the m x n result) stays inside both stores if and only if n == m. |
| TensorAlgebra.TransposeAsWrittenOverflows3x2 | src/Tensor.h:281-286 | For a 3 x 2 tensor the loop writes flat position 7 of a 6-entry result. |
| Tensors.Tensor.CyclicCofactor | src/Tensor.h:294-295 | The loop body of `inverse()` reads the cyclic cofactor of (i, j) from the 3 x 3 store. |
| TensorAlgebra.AdjugateEntry | src/Tensor.h:293-295 | Entry (k, j) of the adjugate is the cyclic cofactor of entry (j, k). |
| TensorAlgebra.CofactorRowExpansion | src/Tensor.h:261-271 | Row i expanded against the cofactors of row j gives the six-term determinant when i == j, and 0 otherwise. |
| TensorAlgebra.CofactorColumnExpansion | src/Tensor.h:261-271 | Column j expanded against the cofactors of column i gives the determinant when i == j, and 0 otherwise. |
| TensorAlgebra.MatMulAdjugate | src/Tensor.h:288-297 | A 3 x 3 tensor times its adjugate, on either side, is its determinant times the identity. |
| Tensors.Tensor.ScaledAdjugate | src/Tensor.h:290-297 | The double loop of `inverse()` fills a fresh tensor with s times the adjugate. |
| TensorAlgebra.MatMulScaledRight | src/Tensor.h:299-306 | A scalar factor on the right operand of `matmul` comes out in front. |
| TensorAlgebra.MatMulScaledLeft | src/Tensor.h:299-306 | A scalar factor on the left operand of `matmul` comes out in front. |
| TensorAlgebra.MatMulInverse | src/Tensor.h:288-306 | When the determinant is nonzero, `matmul(a, inverse(a))` and `matmul(inverse(a), a)` are both the identity. |
| Tensors.Tensor.Inverse | src/Tensor.h:288-297 | `inverse()` returns 1/determinant times the adjugate, and `matmul(t, inverse())` is the identity. |
| Tensors.AccumulateDot | src/Tensor.h:302-304 | The innermost `matmul` loop leaves in t(i, j) the sum over k of a(i, k) * b(k, j) and touches no other entry. |
| Tensors.MatMul | src/Tensor.h:299-306 | `matmul(a, b)` of an n x m and an m x l tensor is the fresh n x l tensor of all such sums. |
| Tensors.MatVec | src/Tensor.h:308-313 | `matmul(a, v)` is the vector whose entry i is the sum over j of a(i, j) * v(j). |
| Tensors.VecMat | src/Tensor.h:315-320 | `matmul(v, b)` is the vector whose entry i is the sum over j of v(j) * b(j, i). |
| TensorAlgebra.VectorMatrixIsTransposed | src/Tensor.h:308-320 | `matmul(v, b)` equals `matmul(transpose(b), v)`. |
| TensorAlgebra.SkewByEntries | src/Tensor.h:342-358 | A 3 x 3 store with a zero diagonal and opposite off-diagonal pairs has its negation as its transpose. |
| TensorAlgebra.DcrossDv1 | src/Tensor.h:342-349 | `dcrossDv1(v1, v2)` is the 3 x 3 tensor built from v2 alone, in C order. It is skew-symmetric: its transpose is its negation. |
| TensorAlgebra.DcrossDv2 | src/Tensor.h:351-358 | `dcrossDv2(v1, v2)` is the 3 x 3 tensor built from v1 alone, in C order. It is skew-symmetric: its transpose is its negation. |
| TensorAlgebra.DcrossDv1IsDerivative | src/Tensor.h:342-349 | For every w and every v1, `matmul(dcrossDv1(v1, v2), w)` is the cross product w x v2. The result does not depend on v1. |
| TensorAlgebra.DcrossDv2IsDerivative | src/Tensor.h:351-358 | For every w and every v2, `matmul(dcrossDv2(v1, v2), w)` is the cross product v1 x w. The result does not depend on v2. |
| Grids.SizePositive | src/tools/Grid.h:92-94 | A lattice with at least one bin on every axis has at least one cell. |
| GridIndex.Indices | src/tools/Grid.h:140-142 | `getIndices(index)` of a flat index below the lattice size gives one index per axis, each below its bin count. |
| GridIndex.Index | src/tools/Grid.h:144 | `getIndex(indices)` is the mixed-radix index with the last axis varying fastest. For an in-range tuple it is below `maxsize_`. |
| GridIndex.IndicesOfIndex | src/tools/Grid.h:140-144 | `getIndices(getIndex(t)) == t` for every in-range tuple. |
| GridIndex.IndexOfIndices | src/tools/Grid.h:140-144 | `getIndex(getIndices(x)) == x` for every flat index below `maxsize_`. |
| GridIndex.IndexInjective | src/tools/Grid.h:140-144 | Two in-range tuples have the same flat index if and only if they are equal. |
| GridIndex.Step | src/tools/Grid.h:158-160 | One step along an axis, when it exists, lands on an index below the bin count. |
| GridIndex.Keep | src/tools/Grid.h:158-160 | One step along one axis contributes at most one neighbour. |
| GridIndex.NeighborsFrom | src/tools/Grid.h:158-160 | Axes k and later contribute at most 2 neighbours each. |
| GridIndex.NearestNeighbors | src/tools/Grid.h:158-160 | `getNearestNeighbors` returns at most 2 * dimension cells. |
| GridIndex.StepIsUnit | src/tools/Grid.h:158-160 | A step that exists leads to an in-range tuple one lattice unit away along that axis. |
| GridIndex.KeepSound | src/tools/Grid.h:158-160 | The cell kept for one step is a lattice cell other than the start, one lattice unit away. |
| GridIndex.NeighborsFromSound | src/tools/Grid.h:158-160 | Every neighbour listed from axis k on is a lattice cell other than the start, one lattice unit away along one axis. |
| GridIndex.NearestNeighborsSound | src/tools/Grid.h:158-160 | Every nearest neighbour is a cell of the lattice, differs from the start, and lies exactly one lattice unit away along one axis. Periodic axes count the wrap between the two ends. |
| GridIndex.UnitIsStep | src/tools/Grid.h:158-160 | An index one unit away along an axis is reached by the step down or the step up. |
| GridIndex.NeighborsFromComplete | src/tools/Grid.h:158-160 | Every other cell one unit away along an axis from k on is listed. |
| GridIndex.NearestNeighborsComplete | src/tools/Grid.h:158-160 | Every cell other than the start that lies one lattice unit away is listed. |
| GridIndex.NearestNeighborsOfIndex | src/tools/Grid.h:159 | `getNearestNeighbors(index)` is `NearestNeighbors` of `getIndices(index)`. It has at most 2 * dimension entries, and a flat index y is listed if and only if y is a cell of the lattice other than `index` and one lattice unit away from it. |
| Grids.Grid.constructor | src/tools/Grid.h:106-109 | The constructor with the default `doclear` fixes the lattice: `dimension_` is the axis count (at most `maxdim` = 64) and `maxsize_` is the product of the bin counts. It then clears every cell. |
| Grids.Grid.Clear | src/tools/Grid.h:104-105 | `clear()` leaves every value 0 and every derivative vector all zeros, of length `dimension_`. |
| GridStore.ClearedDense | src/tools/Grid.h:104-105 | A cleared dense store has `maxsize_` cells, each with `dimension_` derivatives. |
| Grids.Grid.GetSize | src/tools/Grid.h:171-172 | `getSize()` is the product of the bin counts, and it is positive. |
| Grids.Grid.GetValue | src/tools/Grid.h:174 | `getValue(index)` is the stored value of that cell. |
| Grids.Grid.GetValueAt | src/tools/Grid.h:175 | `getValue(indices)` is the stored value at `getIndex(indices)`, which is a cell of the lattice. |
| Grids.Grid.GetValueAndDerivatives | src/tools/Grid.h:182 | The cell's value and a derivative vector of length `dimension_`. |
| Grids.Grid.GetValueAndDerivativesAt | src/tools/Grid.h:183 | The tuple form reads the value and derivatives of the cell at `getIndex(indices)`, which is a cell of the lattice. |
| GridStore.ApplyDense | src/tools/Grid.h:190-201 | Every set or add on a dense store keeps `maxsize_` cells with `dimension_` derivatives each. |
| Grids.Grid.SetValue | src/tools/Grid.h:190-191 | After `setValue(index, v)`, `getValue(index)` is v and every other cell is unchanged. |
| Grids.Grid.SetValueAt | src/tools/Grid.h:192 | `setValue(indices, v)` is `setValue(getIndex(indices), v)`. |
| Grids.Grid.SetValueAndDerivatives | src/tools/Grid.h:193-194 | The cell reads back exactly the given value and derivatives. Nothing else changes. |
| Grids.Grid.SetValueAndDerivativesAt | src/tools/Grid.h:195 | The tuple form writes the cell at `getIndex(indices)`. |
| Grids.Grid.AddValue | src/tools/Grid.h:196-197 | The cell's value grows by the given amount. Nothing else changes. |
| Grids.Grid.AddValueAt | src/tools/Grid.h:198 | The tuple form adds to the cell at `getIndex(indices)`. |
| Grids.Grid.AddValueAndDerivatives | src/tools/Grid.h:199-200 | The value grows by the amount and the derivative vector grows componentwise by `der`. Nothing else changes. |
| Grids.Grid.AddValueAndDerivativesAt | src/tools/Grid.h:201 | The tuple form adds to the cell at `getIndex(indices)`. |
| GridStore.AddAccumulates | src/tools/Grid.h:196-198 | Two `addValue`s at one cell leave its old value plus both amounts, on the dense and on the sparse store. Every other sparse cell is unchanged. |
| Grids.Grid.GetMinValue | src/tools/Grid.h:177-178 | `getMinValue()` is the least stored value. |
| Grids.Grid.GetMaxValue | src/tools/Grid.h:179-180 | `getMaxValue()` is the greatest stored value. |
| RealSeq.MinimumIsLeast | src/tools/Grid.h:177-178 | The minimum is one of the values, and no value is smaller. |
| RealSeq.MaximumIsGreatest | src/tools/Grid.h:179-180 | The maximum is one of the values, and no value is greater. |
| Grids.Grid.ScaleAllValuesAndDerivatives | src/tools/Grid.h:202-203 | Every value is multiplied by `scalef`. When the grid has derivatives, so is every derivative component. |
| Grids.Grid.SetMinToZero | src/tools/Grid.h:206-207 | Every value moves down by the old minimum, so the new minimum is 0 and the new maximum is the old spread. Derivatives are untouched. |
| RealSeq.ShiftedExtremes | src/tools/Grid.h:206-207 | Moving every value by c moves the minimum and the maximum by c. |
| RealSeq.MinimumToZero | src/tools/Grid.h:206-207 | Moving every value by minus the minimum gives minimum 0 and maximum max - min. |
| Grids.SparseGrid.constructor | src/tools/Grid.h:248-251 | The sparse grid has the same lattice and stores no cell. |
| Grids.SparseGrid.Clear | src/tools/Grid.h:245 | `clear()` forgets every stored cell. |
| GridStore.ClearedAgree | src/tools/Grid.h:245 | A cleared dense store and a cleared sparse store read the same at every cell. |
| Grids.SparseGrid.GetMaxSize | src/tools/Grid.h:254 | `getMaxSize()` is the number of cells of the lattice. |
| Grids.SparseGrid.GetSize | src/tools/Grid.h:253 | `getSize()` is the number of stored cells and never exceeds `getMaxSize()`. |
| GridStore.CardBelow | src/tools/Grid.h:253-254 | A set of flat indices below n has at most n members. |
| Grids.SparseGrid.GetValue | src/tools/Grid.h:264-265 | The stored value of the cell, or 0 for a cell never written. |
| Grids.SparseGrid.GetValueAndDerivatives | src/tools/Grid.h:266-267 | The cell's value and stored derivatives, or zeros of length `dimension_` for a cell never written. |
| GridStore.ApplySparse | src/tools/Grid.h:269-276 | Every set or add on a sparse store keeps every stored derivative vector of length `dimension_`. |
| GridStore.ApplySparseShape | src/tools/Grid.h:241-242 | Every update keeps the sparse store's keys inside the lattice. |
| Grids.SparseGrid.SetValue | src/tools/Grid.h:269-270 | After `setValue(index, v)`, `getValue(index)` is v. Every other stored cell is unchanged. |
| Grids.SparseGrid.SetValueAndDerivatives | src/tools/Grid.h:271-272 | The cell reads back exactly the given value and derivatives. |
| Grids.SparseGrid.AddValue | src/tools/Grid.h:273-274 | The cell's value grows by the amount, starting from 0 for a cell never written. |
| Grids.SparseGrid.AddValueAndDerivatives | src/tools/Grid.h:275-276 | The value and derivatives grow by the amounts, starting from zeros for a cell never written. |
| Grids.SparseGrid.GetValueAt | src/tools/Grid.h:257 | The inherited tuple form of `getValue` reads the sparse store at `getIndex(indices)`: the stored value, or 0. |
| Grids.SparseGrid.GetValueAndDerivativesAt | src/tools/Grid.h:258 | The inherited tuple form of `getValueAndDerivatives` reads the sparse store at `getIndex(indices)`, with zeros for a cell never written. |
| Grids.SparseGrid.SetValueAt | src/tools/Grid.h:259 | The inherited tuple form of `setValue` writes the sparse cell at `getIndex(indices)`, which then reads the new value. |
| Grids.SparseGrid.SetValueAndDerivativesAt | src/tools/Grid.h:260 | The inherited tuple form of `setValueAndDerivatives` writes the sparse cell at `getIndex(indices)`, which then reads back exactly the given value and derivatives. |
| Grids.SparseGrid.AddValueAt | src/tools/Grid.h:261 | The inherited tuple form of `addValue` adds to the sparse cell at `getIndex(indices)`. |
| Grids.SparseGrid.AddValueAndDerivativesAt | src/tools/Grid.h:262 | The inherited tuple form of `addValueAndDerivatives` adds to the sparse cell at `getIndex(indices)`. |
| GridStore.ApplyAgree | src/tools/Grid.h:264-276 | Applying the same set or add to agreeing dense and sparse stores keeps them agreeing at every cell. |
| GridStore.RunDense | src/tools/Grid.h:190-201 | Any sequence of fitting updates keeps the dense store's shape. |
| GridStore.RunSparse | src/tools/Grid.h:269-276 | Any sequence of updates keeps every sparse derivative vector of length `dimension_`. |
| GridStore.RunAgree | src/tools/Grid.h:264-276 | Agreeing stores stay in agreement under any sequence of updates. |
| GridStore.SparseEqualsDense | src/tools/Grid.h:264-276 | From a cleared grid, any sequence of set and add calls leaves every cell of a `SparseGrid` reading the same value and derivatives as the cell of a dense `Grid`. |

## Left out

- Floating point: entries and cell values are `real`, so rounding, overflow to infinity and NaN are not modelled.
- Tensors.Tensor.DivAssign: requires s != 0. The C++ multiplies by `1.0/s` anyway and produces infinities or NaN, which reals cannot represent.
- Tensors.Divide: requires s != 0. The C++ `t1*(1.0/s)` produces infinities or NaN, which reals cannot represent.
- Tensors.Tensor.Inverse: requires a nonzero determinant, where the C++ divides by zero.
- Template shapes: `n` and `m` are compile-time constants in C++. Here they are the fields `rows` and `cols`, and shape agreement between operands (`a.cols == b.rows` for `matmul`, equal shapes for `+`) is a precondition.
- `VectorGeneric` and `MatrixSquareBracketsAccess`: a vector is a `seq<real>` of the right length, and `operator[]` access is not modelled beyond `operator()`.
- The friend wrappers `determinant(t)`, `inverse(t)` and `transpose(t)` (src/Tensor.h:322-335) only call the member functions. They are covered by `TensorAlgebra.Det3`, `Tensors.Tensor.Inverse` and `Tensors.Tensor.Transpose`.
- Tensors.Tensor.Transpose: loops i < m, j < n, not the loop bounds written in the header. The loop as written is modelled separately; see Findings.
- src/tools/Grid.cpp is not part of this model. The method bodies here are the direct loops the header's doc comments describe. The flat-index ordering (last axis fastest) and the neighbour order (axis by axis, the step down before the step up) are choices of this model.
- GridIndex.NearestNeighbors: the result is a list that may repeat a cell. A periodic axis of two bins lists its single neighbour twice, because the step down and the step up reach the same cell (for `nbin = [2]`, periodic, from cell 0 the list is `[1, 1]`). A periodic axis of one bin has no neighbour along it, because its only step comes back to the cell itself and that cell is not listed. The count bound is `2*dimension`, not an exact count, and the membership statements are about which cells are listed, not how often.
- Point (double-coordinate) overloads of `getIndex`, `getIndices`, `getValue` and `getValueAndDerivatives` are not modelled, nor are `getPoint`, `getNeighbors` with a radius, bin widths `dx_`, or the string bounds `str_min_`/`str_max_`. Binning a point is floating-point arithmetic defined in src/tools/Grid.cpp, which this model does not cover.
- The `doclear=false` construction path and `Init`'s re-initialisation are not modelled: the dense constructor always clears.
- Grids.Grid: `der_` is always allocated with one zero vector per cell. A grid without derivatives simply never reads it.
- Grids.Grid.GetValueAndDerivatives: requires the grid to have derivatives, and so do the other derivative operations. Derivatives exist only for such grids, and a derivative vector whose length is not `dimension_` is a precondition violation.
- `SparseGrid` does not override `getMinValue`, `getMaxValue`, `scaleAllValuesAndDerivatives` or `setMinToZero` in the header. Those inherited members are modelled for the dense `Grid` only.
- File I/O (`writeHeader`, `create`, `writeToFile`, `writeCubeFile`, output format) and `mpiSumValuesAndDerivatives` are left out. They are I/O and collective communication.
- `addKernel`, `project`, `logAllValuesAndDerivatives` and `applyFunctionAllValuesAndDerivatives` are left out. They depend on kernel objects, weight objects, function pointers or transcendental functions, defined in src/tools/Grid.cpp and the kernel classes, which this model does not cover.
- Spline interpolation, `getDifferenceFromContour`, `findSetOfPointsOnContour`, `integrate` and `findMaximalPathMinimum` are left out. They are defined in src/tools/Grid.cpp, which this model does not cover.
- `index_t` is `size_t`. Flat indices here are unbounded `nat`, so an overflowing lattice size is not modelled.
- src/vesselbase/FunctionVessel.cpp is not part of this model. It is output plumbing into foreign value and vessel classes.

## Findings

| source | as written | input that shows it | evidently intended | confidence | as-written member | corrected member |
|---|---|---|---|---|---|---|
| src/Tensor.h:281-286 | `transpose()` of an n x m tensor loops i < n, j < m and assigns `t(i,j) = (*this)(j,i)` into the m x n result | n = 3, m = 2: the last write, t(2, 1), goes to position 2*3 + 1 = 7 of a 6-entry store, and the read (1, 2) of the source is at 2*1 + 2 = 4, which is column 2 of a tensor with only 2 columns | loop i < m, j < n, so that every entry (i, j) of the m x n result is entry (j, i) of the source | not executed | TensorAlgebra.TransposeAsWrittenOnlySquare | Tensors.Tensor.Transpose |
