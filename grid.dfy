/** The storage classes of src/tools/Grid.h: `Grid`, whose cells live in the dense buffers
    `grid_` (one value per cell) and `der_` (one derivative vector per cell), and `SparseGrid`,
    which keeps only the written cells in the maps `map_` and `der_`. Every state-changing
    member is proved against GridStore.ApplyDense or GridStore.ApplySparse; the lemmas of
    GridStore then carry over to the classes. */
module Grids {
  import opened RealSeq
  import opened GridIndex
  import opened GridStore

  /** The lattice of a grid with these bin counts and periodicity flags is well formed: one flag
      per axis, at most `maxdim` axes, and at least one bin on every axis. */
  predicate GoodGeometry(nbin: seq<nat>, pbc: seq<bool>)
  {
    |pbc| == |nbin| && |nbin| <= MaxDim && forall k :: 0 <= k < |nbin| ==> nbin[k] > 0
  }

  /** A lattice with at least one bin per axis has at least one cell. */
  lemma {:induction false} SizePositive(nbin: seq<nat>)
    requires forall k :: 0 <= k < |nbin| ==> nbin[k] > 0
    ensures Size(nbin) > 0
  {
    if |nbin| > 0 {
      assert forall k :: 0 <= k < |nbin| - 1 ==> nbin[1..][k] == nbin[k + 1];
      SizePositive(nbin[1..]);
    }
  }

  /** The dense grid. */
  class Grid {
    const nbin: seq<nat>
    const pbc: seq<bool>
    const usederiv: bool
    /** `dimension_`: the number of axes, and the length of every derivative vector. */
    const dimension: nat
    /** `maxsize_`: the number of cells. */
    const maxsize: nat
    const grid: array<real>
    const der: array<seq<real>>

    /** The geometry and the buffer sizes agree. */
    predicate Shape()
    {
      GoodGeometry(nbin, pbc) && dimension == |nbin| && maxsize == Size(nbin) && maxsize > 0
      && grid.Length == maxsize && der.Length == maxsize
    }

    /** `Shape()`, and every cell's derivative vector has one component per axis. */
    predicate Valid()
      reads der
    {
      Shape() && forall i :: 0 <= i < der.Length ==> |der[i]| == dimension
    }

    /** The cells, as a value. */
    function Store(): (s: Dense)
      reads grid, der
    {
      Dense(grid[..], der[..])
    }

    /** The grid constructor (with the default `doclear`): the lattice, then `clear()`. */
    constructor (nbin: seq<nat>, pbc: seq<bool>, usederiv: bool)
      requires GoodGeometry(nbin, pbc)
      ensures this.nbin == nbin && this.pbc == pbc && this.usederiv == usederiv
      ensures dimension == |nbin| && maxsize == Size(nbin) && maxsize > 0
      ensures Valid() && fresh(grid) && fresh(der)
      ensures Store() == ClearedDense(Size(nbin), |nbin|)
    {
      SizePositive(nbin);
      this.nbin, this.pbc, this.usederiv := nbin, pbc, usederiv;
      dimension, maxsize := |nbin|, Size(nbin);
      grid := new real[Size(nbin)];
      der := new seq<real>[Size(nbin)];
      new;
      Clear();
    }

    /** `clear()`: every value 0, every derivative vector all zeros. */
    method Clear()
      requires Shape()
      modifies grid, der
      ensures Valid()
      ensures Store() == ClearedDense(maxsize, dimension)
    {
      for i := 0 to maxsize
        invariant forall k :: 0 <= k < i ==> grid[k] == 0.0 && der[k] == Zeros(dimension)
      {
        grid[i] := 0.0;
        der[i] := Zeros(dimension);
      }
      assert grid[..] == Zeros(maxsize);
      assert der[..] == seq(maxsize, i => Zeros(dimension));
    }

    /** `getSize()`: the number of cells, the product of the bin counts. */
    function GetSize(): (n: nat)
      requires Shape()
      ensures n == Size(nbin) && n > 0
    {
      maxsize
    }

    /** `getValue(index)`. */
    function GetValue(index: nat): (v: real)
      requires Valid() && index < maxsize
      reads grid, der
      ensures v == Store().values[index]
    {
      grid[index]
    }

    /** `getValue(indices)`: the cell with that tuple of per-axis indices. */
    function GetValueAt(t: seq<nat>): (v: real)
      requires Valid() && InRange(nbin, t)
      reads grid, der
      ensures Index(nbin, t) < maxsize && v == Store().values[Index(nbin, t)]
    {
      GetValue(Index(nbin, t))
    }

    /** `getValueAndDerivatives(index)`: the value and a copy of the derivative vector. */
    function GetValueAndDerivatives(index: nat): (r: (real, seq<real>))
      requires Valid() && usederiv && index < maxsize
      reads grid, der
      ensures r == (Store().values[index], Store().ders[index]) && |r.1| == dimension
    {
      (grid[index], der[index])
    }

    /** `getValueAndDerivatives(indices, der)`: the cell with that tuple of per-axis indices. */
    function GetValueAndDerivativesAt(t: seq<nat>): (r: (real, seq<real>))
      requires Valid() && usederiv && InRange(nbin, t)
      reads grid, der
      ensures Index(nbin, t) < maxsize
      ensures r == (Store().values[Index(nbin, t)], Store().ders[Index(nbin, t)]) && |r.1| == dimension
    {
      GetValueAndDerivatives(Index(nbin, t))
    }

    /** `setValue(index, value)`: that cell reads `value`, nothing else changes. */
    method SetValue(index: nat, value: real)
      requires Valid() && index < maxsize
      modifies grid
      ensures Valid()
      ensures Store() == ApplyDense(old(Store()), GridStore.SetValue(index, value), dimension)
      ensures GetValue(index) == value
    {
      grid[index] := value;
    }

    /** `setValue(indices, value)`. */
    method SetValueAt(t: seq<nat>, value: real)
      requires Valid() && InRange(nbin, t)
      modifies grid
      ensures Valid() && Index(nbin, t) < maxsize
      ensures Store() == ApplyDense(old(Store()), GridStore.SetValue(Index(nbin, t), value), dimension)
      ensures GetValueAt(t) == value
    {
      SetValue(Index(nbin, t), value);
    }

    /** `setValueAndDerivatives(index, value, der)`. */
    method SetValueAndDerivatives(index: nat, value: real, d: seq<real>)
      requires Valid() && usederiv && index < maxsize && |d| == dimension
      modifies grid, der
      ensures Valid()
      ensures Store() == ApplyDense(old(Store()), GridStore.SetValueAndDerivatives(index, value, d), dimension)
      ensures GetValueAndDerivatives(index) == (value, d)
    {
      grid[index] := value;
      der[index] := d;
    }

    /** `setValueAndDerivatives(indices, value, der)`. */
    method SetValueAndDerivativesAt(t: seq<nat>, value: real, d: seq<real>)
      requires Valid() && usederiv && InRange(nbin, t) && |d| == dimension
      modifies grid, der
      ensures Valid() && Index(nbin, t) < maxsize
      ensures Store() == ApplyDense(old(Store()), GridStore.SetValueAndDerivatives(Index(nbin, t), value, d), dimension)
    {
      SetValueAndDerivatives(Index(nbin, t), value, d);
    }

    /** `addValue(index, value)`: that cell's value grows by `value`, nothing else changes. */
    method AddValue(index: nat, value: real)
      requires Valid() && index < maxsize
      modifies grid
      ensures Valid()
      ensures Store() == ApplyDense(old(Store()), GridStore.AddValue(index, value), dimension)
      ensures GetValue(index) == old(GetValue(index)) + value
    {
      grid[index] := grid[index] + value;
    }

    /** `addValue(indices, value)`. */
    method AddValueAt(t: seq<nat>, value: real)
      requires Valid() && InRange(nbin, t)
      modifies grid
      ensures Valid() && Index(nbin, t) < maxsize
      ensures Store() == ApplyDense(old(Store()), GridStore.AddValue(Index(nbin, t), value), dimension)
    {
      AddValue(Index(nbin, t), value);
    }

    /** `addValueAndDerivatives(index, value, der)`: the value grows by `value` and the
        derivative vector by `der`, component by component. */
    method AddValueAndDerivatives(index: nat, value: real, d: seq<real>)
      requires Valid() && usederiv && index < maxsize && |d| == dimension
      modifies grid, der
      ensures Valid()
      ensures Store() == ApplyDense(old(Store()), GridStore.AddValueAndDerivatives(index, value, d), dimension)
      ensures GetValueAndDerivatives(index) == (old(GetValue(index)) + value, Sum(old(Store().ders[index]), d))
    {
      grid[index] := grid[index] + value;
      der[index] := Sum(der[index], d);
    }

    /** `addValueAndDerivatives(indices, value, der)`. */
    method AddValueAndDerivativesAt(t: seq<nat>, value: real, d: seq<real>)
      requires Valid() && usederiv && InRange(nbin, t) && |d| == dimension
      modifies grid, der
      ensures Valid() && Index(nbin, t) < maxsize
      ensures Store() == ApplyDense(old(Store()), GridStore.AddValueAndDerivatives(Index(nbin, t), value, d), dimension)
    {
      AddValueAndDerivatives(Index(nbin, t), value, d);
    }

    /** `getMinValue()`: the least value of the grid, found by one pass over the cells. */
    method GetMinValue() returns (m: real)
      requires Valid()
      ensures m == Minimum(grid[..])
    {
      m := grid[0];
      assert grid[..1] == [grid[0]];
      for i := 1 to maxsize
        invariant m == Minimum(grid[..i])
      {
        assert grid[..i + 1][..i] == grid[..i];
        if grid[i] < m {
          m := grid[i];
        }
      }
      assert grid[..maxsize] == grid[..];
    }

    /** `getMaxValue()`: the greatest value of the grid. */
    method GetMaxValue() returns (m: real)
      requires Valid()
      ensures m == Maximum(grid[..])
    {
      m := grid[0];
      assert grid[..1] == [grid[0]];
      for i := 1 to maxsize
        invariant m == Maximum(grid[..i])
      {
        assert grid[..i + 1][..i] == grid[..i];
        if grid[i] > m {
          m := grid[i];
        }
      }
      assert grid[..maxsize] == grid[..];
    }

    /** `scaleAllValuesAndDerivatives(scalef)`: every value, and every derivative when the grid
        has derivatives, multiplied by `scalef`. */
    method ScaleAllValuesAndDerivatives(scalef: real)
      requires Valid()
      modifies grid, der
      ensures Valid()
      ensures grid[..] == Scaled(scalef, old(grid[..]))
      ensures der[..] == if usederiv then seq(maxsize, i requires 0 <= i < maxsize => Scaled(scalef, old(der[i])))
                         else old(der[..])
    {
      ghost var values := Scaled(scalef, old(grid[..]));
      ghost var ders := if usederiv then seq(maxsize, i requires 0 <= i < maxsize => Scaled(scalef, old(der[i])))
                        else old(der[..]);
      for i := 0 to maxsize
        invariant forall k :: 0 <= k < i ==> grid[k] == values[k] && der[k] == ders[k]
        invariant forall k :: i <= k < maxsize ==> grid[k] == old(grid[k]) && der[k] == old(der[k])
      {
        grid[i] := grid[i] * scalef;
        if usederiv {
          der[i] := Scaled(scalef, der[i]);
        }
      }
      assert grid[..] == values;
      assert der[..] == ders;
    }

    /** `setMinToZero()`: every value moved down by the old minimum, derivatives untouched. */
    method SetMinToZero()
      requires Valid()
      modifies grid
      ensures Valid()
      ensures grid[..] == Shifted(old(grid[..]), -Minimum(old(grid[..])))
      ensures Minimum(grid[..]) == 0.0
      ensures Maximum(grid[..]) == Maximum(old(grid[..])) - Minimum(old(grid[..]))
    {
      var m := GetMinValue();
      ghost var a := grid[..];
      ghost var target := Shifted(a, -Minimum(a));
      for i := 0 to maxsize
        invariant forall k :: 0 <= k < i ==> grid[k] == target[k]
        invariant forall k :: i <= k < maxsize ==> grid[k] == a[k]
      {
        grid[i] := grid[i] - m;
      }
      assert grid[..] == target;
      MinimumToZero(a, grid[..]);
    }
  }

  /** The sparse grid: only the cells written since the last `clear()` are stored. */
  class SparseGrid {
    const nbin: seq<nat>
    const pbc: seq<bool>
    const usederiv: bool
    const dimension: nat
    const maxsize: nat
    /** `map_`: the values of the written cells. */
    var values: map<nat, real>
    /** `der_`: the derivative vectors of the written cells. */
    var ders: map<nat, seq<real>>

    /** The cells, as a value. */
    function Store(): Sparse
      reads this
    {
      Sparse(values, ders)
    }

    /** The geometry is well formed and every stored cell is a cell of the lattice. */
    predicate Valid()
      reads this
    {
      GoodGeometry(nbin, pbc) && dimension == |nbin| && maxsize == Size(nbin)
      && SparseShape(Store(), maxsize, dimension)
    }

    /** The sparse grid constructor: the lattice, with nothing stored. */
    constructor (nbin: seq<nat>, pbc: seq<bool>, usederiv: bool)
      requires GoodGeometry(nbin, pbc)
      ensures this.nbin == nbin && this.pbc == pbc && this.usederiv == usederiv
      ensures dimension == |nbin| && maxsize == Size(nbin)
      ensures Valid() && Store() == ClearedSparse()
    {
      this.nbin, this.pbc, this.usederiv := nbin, pbc, usederiv;
      dimension, maxsize := |nbin|, Size(nbin);
      values, ders := map[], map[];
    }

    /** `clear()`: forget every stored cell. */
    method Clear()
      requires Valid()
      modifies this
      ensures Valid() && Store() == ClearedSparse()
    {
      values, ders := map[], map[];
    }

    /** `getMaxSize()`: the number of cells of the lattice. */
    function GetMaxSize(): (n: nat)
      requires Valid()
      reads this
      ensures n == Size(nbin)
    {
      maxsize
    }

    /** `getSize()`: the number of stored cells, never more than the lattice has. */
    function GetSize(): (n: nat)
      requires Valid()
      reads this
      ensures n == |values.Keys|
      ensures n <= GetMaxSize()
    {
      CardBelow(values.Keys, maxsize);
      |values|
    }

    /** `getValue(index)`: the stored value, 0 for a cell never written. */
    function GetValue(index: nat): (v: real)
      requires Valid() && index < maxsize
      reads this
      ensures index in values ==> v == values[index]
      ensures index !in values ==> v == 0.0
    {
      SparseValue(Store(), index)
    }

    /** `getValueAndDerivatives(index)`: the stored value and derivatives, zeros for a cell never
        written. */
    function GetValueAndDerivatives(index: nat): (r: (real, seq<real>))
      requires Valid() && usederiv && index < maxsize
      reads this
      ensures r.0 == GetValue(index) && |r.1| == dimension
      ensures index in ders ==> r.1 == ders[index]
      ensures index !in ders ==> r.1 == Zeros(dimension)
    {
      (SparseValue(Store(), index), SparseDer(Store(), index, dimension))
    }

    /** `getValue(indices)`, which `using Grid::getValue` makes read the sparse store. */
    function GetValueAt(t: seq<nat>): (v: real)
      requires Valid() && InRange(nbin, t)
      reads this
      ensures Index(nbin, t) < maxsize && v == SparseValue(Store(), Index(nbin, t))
    {
      GetValue(Index(nbin, t))
    }

    /** `getValueAndDerivatives(indices, der)`, through the sparse store. */
    function GetValueAndDerivativesAt(t: seq<nat>): (r: (real, seq<real>))
      requires Valid() && usederiv && InRange(nbin, t)
      reads this
      ensures Index(nbin, t) < maxsize && |r.1| == dimension
      ensures r == (SparseValue(Store(), Index(nbin, t)), SparseDer(Store(), Index(nbin, t), dimension))
    {
      GetValueAndDerivatives(Index(nbin, t))
    }

    /** `setValue(index, value)`. */
    method SetValue(index: nat, value: real)
      requires Valid() && index < maxsize
      modifies this
      ensures Valid()
      ensures Store() == ApplySparse(old(Store()), GridStore.SetValue(index, value), dimension)
      ensures GetValue(index) == value
    {
      values := values[index := value];
    }

    /** `setValueAndDerivatives(index, value, der)`. */
    method SetValueAndDerivatives(index: nat, value: real, d: seq<real>)
      requires Valid() && usederiv && index < maxsize && |d| == dimension
      modifies this
      ensures Valid()
      ensures Store() == ApplySparse(old(Store()), GridStore.SetValueAndDerivatives(index, value, d), dimension)
      ensures GetValueAndDerivatives(index) == (value, d)
    {
      values := values[index := value];
      ders := ders[index := d];
    }

    /** `addValue(index, value)`: a cell never written starts from 0. */
    method AddValue(index: nat, value: real)
      requires Valid() && index < maxsize
      modifies this
      ensures Valid()
      ensures Store() == ApplySparse(old(Store()), GridStore.AddValue(index, value), dimension)
      ensures GetValue(index) == old(GetValue(index)) + value
    {
      values := values[index := SparseValue(Store(), index) + value];
    }

    /** `addValueAndDerivatives(index, value, der)`: a cell never written starts from a zero
        value and zero derivatives. */
    method AddValueAndDerivatives(index: nat, value: real, d: seq<real>)
      requires Valid() && usederiv && index < maxsize && |d| == dimension
      modifies this
      ensures Valid()
      ensures Store() == ApplySparse(old(Store()), GridStore.AddValueAndDerivatives(index, value, d), dimension)
      ensures GetValueAndDerivatives(index) == (old(GetValue(index)) + value, Sum(old(GetValueAndDerivatives(index)).1, d))
    {
      var v, dv := SparseValue(Store(), index), SparseDer(Store(), index, dimension);
      values := values[index := v + value];
      ders := ders[index := Sum(dv, d)];
    }

    /** `setValue(indices, value)`, inherited through `using Grid::setValue`. */
    method SetValueAt(t: seq<nat>, value: real)
      requires Valid() && InRange(nbin, t)
      modifies this
      ensures Valid() && Index(nbin, t) < maxsize
      ensures Store() == ApplySparse(old(Store()), GridStore.SetValue(Index(nbin, t), value), dimension)
      ensures GetValueAt(t) == value
    {
      SetValue(Index(nbin, t), value);
    }

    /** `setValueAndDerivatives(indices, value, der)`. */
    method SetValueAndDerivativesAt(t: seq<nat>, value: real, d: seq<real>)
      requires Valid() && usederiv && InRange(nbin, t) && |d| == dimension
      modifies this
      ensures Valid() && Index(nbin, t) < maxsize
      ensures Store() == ApplySparse(old(Store()), GridStore.SetValueAndDerivatives(Index(nbin, t), value, d), dimension)
      ensures GetValueAndDerivativesAt(t) == (value, d)
    {
      SetValueAndDerivatives(Index(nbin, t), value, d);
    }

    /** `addValue(indices, value)`. */
    method AddValueAt(t: seq<nat>, value: real)
      requires Valid() && InRange(nbin, t)
      modifies this
      ensures Valid() && Index(nbin, t) < maxsize
      ensures Store() == ApplySparse(old(Store()), GridStore.AddValue(Index(nbin, t), value), dimension)
    {
      AddValue(Index(nbin, t), value);
    }

    /** `addValueAndDerivatives(indices, value, der)`. */
    method AddValueAndDerivativesAt(t: seq<nat>, value: real, d: seq<real>)
      requires Valid() && usederiv && InRange(nbin, t) && |d| == dimension
      modifies this
      ensures Valid() && Index(nbin, t) < maxsize
      ensures Store() == ApplySparse(old(Store()), GridStore.AddValueAndDerivatives(Index(nbin, t), value, d), dimension)
    {
      AddValueAndDerivatives(Index(nbin, t), value, d);
    }
  }
}
