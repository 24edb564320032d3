/** What the storage operations of `Grid` and `SparseGrid` (src/tools/Grid.h) do to the cells,
    as values: a dense store holds a value and a derivative vector for every cell; a sparse
    store holds them only for the cells written so far, and every other cell reads as a zero
    value with a zero derivative vector. The two classes in module Grids are proved against
    ApplyDense and ApplySparse, and the lemmas here show the two backings agree. */
module GridStore {
  import opened RealSeq

  /** A per-cell update: `setValue`, `setValueAndDerivatives`, `addValue` and
      `addValueAndDerivatives` on a flat index. */
  datatype Update =
    | SetValue(index: nat, value: real)
    | SetValueAndDerivatives(index: nat, value: real, der: seq<real>)
    | AddValue(index: nat, value: real)
    | AddValueAndDerivatives(index: nat, value: real, der: seq<real>)

  /** The dense backing: `grid_` and `der_`. */
  datatype Dense = Dense(values: seq<real>, ders: seq<seq<real>>)

  /** The sparse backing: `map_` and the derivative map `der_`, keyed by flat index. */
  datatype Sparse = Sparse(values: map<nat, real>, ders: map<nat, seq<real>>)

  /** An update that fits a lattice of `size` cells with `dim` derivatives per cell. */
  predicate Fits(u: Update, size: nat, dim: nat)
  {
    u.index < size && ((u.SetValueAndDerivatives? || u.AddValueAndDerivatives?) ==> |u.der| == dim)
  }

  /** A dense store of `size` cells, each with `dim` derivatives. */
  predicate DenseShape(d: Dense, size: nat, dim: nat)
  {
    |d.values| == size && |d.ders| == size && forall i :: 0 <= i < size ==> |d.ders[i]| == dim
  }

  /** A sparse store whose keys are cells of a lattice of `size` cells, each derivative vector
      of length `dim`. */
  predicate SparseShape(s: Sparse, size: nat, dim: nat)
  {
    (forall i :: i in s.values ==> i < size)
    && (forall i :: i in s.ders ==> i < size)
    && DerLengths(s, dim)
  }

  /** Every derivative vector a sparse store holds has `dim` components. */
  predicate DerLengths(s: Sparse, dim: nat)
  {
    forall i :: i in s.ders ==> |s.ders[i]| == dim
  }

  /** The dense store right after `clear()`: every value and derivative 0. */
  function ClearedDense(size: nat, dim: nat): (d: Dense)
    ensures DenseShape(d, size, dim)
  {
    Dense(Zeros(size), seq(size, i => Zeros(dim)))
  }

  /** The sparse store right after `clear()`: nothing stored. */
  function ClearedSparse(): (s: Sparse)
  {
    Sparse(map[], map[])
  }

  /** `SparseGrid::getValue(index)`: the stored value, or 0 for a cell never written. */
  function SparseValue(s: Sparse, i: nat): real
  {
    if i in s.values then s.values[i] else 0.0
  }

  /** `SparseGrid::getValueAndDerivatives(index)`'s derivatives: the stored vector, or zeros
      for a cell never written. */
  function SparseDer(s: Sparse, i: nat, dim: nat): seq<real>
  {
    if i in s.ders then s.ders[i] else Zeros(dim)
  }

  /** The dense store after an update. */
  function ApplyDense(d: Dense, u: Update, dim: nat): (r: Dense)
    requires DenseShape(d, |d.values|, dim) && Fits(u, |d.values|, dim)
    ensures DenseShape(r, |d.values|, dim)
  {
    match u
    case SetValue(i, v) => Dense(d.values[i := v], d.ders)
    case SetValueAndDerivatives(i, v, der) => Dense(d.values[i := v], d.ders[i := der])
    case AddValue(i, v) => Dense(d.values[i := d.values[i] + v], d.ders)
    case AddValueAndDerivatives(i, v, der) =>
      Dense(d.values[i := d.values[i] + v], d.ders[i := Sum(d.ders[i], der)])
  }

  /** The sparse store after an update: a write inserts the cell, an add starts from the value
      and derivatives the cell reads as. */
  function ApplySparse(s: Sparse, u: Update, dim: nat): (r: Sparse)
    requires DerLengths(s, dim)
    requires (u.SetValueAndDerivatives? || u.AddValueAndDerivatives?) ==> |u.der| == dim
    ensures DerLengths(r, dim)
  {
    match u
    case SetValue(i, v) => Sparse(s.values[i := v], s.ders)
    case SetValueAndDerivatives(i, v, der) => Sparse(s.values[i := v], s.ders[i := der])
    case AddValue(i, v) => Sparse(s.values[i := SparseValue(s, i) + v], s.ders)
    case AddValueAndDerivatives(i, v, der) =>
      Sparse(s.values[i := SparseValue(s, i) + v], s.ders[i := Sum(SparseDer(s, i, dim), der)])
  }

  /** An update keeps the sparse store's keys inside the lattice. */
  lemma ApplySparseShape(s: Sparse, u: Update, size: nat, dim: nat)
    requires SparseShape(s, size, dim) && Fits(u, size, dim)
    ensures SparseShape(ApplySparse(s, u, dim), size, dim)
  {
  }

  /** Every cell of the dense store reads the same as the sparse store. */
  predicate Agree(d: Dense, s: Sparse, dim: nat)
  {
    |d.ders| == |d.values|
    && forall i :: 0 <= i < |d.values| ==> d.values[i] == SparseValue(s, i) && d.ders[i] == SparseDer(s, i, dim)
  }

  /** A cleared dense store and a cleared sparse store agree. */
  lemma ClearedAgree(size: nat, dim: nat)
    ensures Agree(ClearedDense(size, dim), ClearedSparse(), dim)
  {
  }

  /** Applying the same update to agreeing stores keeps them agreeing. */
  lemma ApplyAgree(d: Dense, s: Sparse, u: Update, dim: nat)
    requires DenseShape(d, |d.values|, dim) && Fits(u, |d.values|, dim) && Agree(d, s, dim)
    requires DerLengths(s, dim)
    ensures Agree(ApplyDense(d, u, dim), ApplySparse(s, u, dim), dim)
  {
    var d2, s2 := ApplyDense(d, u, dim), ApplySparse(s, u, dim);
    forall i | 0 <= i < |d.values|
      ensures d2.values[i] == SparseValue(s2, i) && d2.ders[i] == SparseDer(s2, i, dim)
    {
      assert d.values[i] == SparseValue(s, i) && d.ders[i] == SparseDer(s, i, dim);
    }
  }

  /** A sequence of updates, applied in order. */
  function RunDense(d: Dense, us: seq<Update>, dim: nat): (r: Dense)
    requires DenseShape(d, |d.values|, dim)
    requires forall k :: 0 <= k < |us| ==> Fits(us[k], |d.values|, dim)
    ensures DenseShape(r, |d.values|, dim)
    decreases |us|
  {
    if |us| == 0 then d else RunDense(ApplyDense(d, us[0], dim), us[1..], dim)
  }

  /** The same sequence of updates on a sparse store. */
  function RunSparse(s: Sparse, us: seq<Update>, dim: nat): (r: Sparse)
    requires DerLengths(s, dim)
    requires forall k :: 0 <= k < |us| ==> (us[k].SetValueAndDerivatives? || us[k].AddValueAndDerivatives?) ==> |us[k].der| == dim
    ensures DerLengths(r, dim)
    decreases |us|
  {
    if |us| == 0 then s else RunSparse(ApplySparse(s, us[0], dim), us[1..], dim)
  }

  /** Agreeing stores stay in agreement under any sequence of updates. */
  lemma {:induction false} RunAgree(d: Dense, s: Sparse, us: seq<Update>, dim: nat)
    requires DenseShape(d, |d.values|, dim) && Agree(d, s, dim) && DerLengths(s, dim)
    requires forall k :: 0 <= k < |us| ==> Fits(us[k], |d.values|, dim)
    ensures Agree(RunDense(d, us, dim), RunSparse(s, us, dim), dim)
    decreases |us|
  {
    if |us| > 0 {
      ApplyAgree(d, s, us[0], dim);
      RunAgree(ApplyDense(d, us[0], dim), ApplySparse(s, us[0], dim), us[1..], dim);
    }
  }

  /** Sparse versus dense: from a cleared grid, any sequence of set and add updates leaves
      every cell of a `SparseGrid` reading exactly as the same cell of a dense `Grid`. */
  lemma SparseEqualsDense(size: nat, dim: nat, us: seq<Update>)
    requires forall k :: 0 <= k < |us| ==> Fits(us[k], size, dim)
    ensures Agree(RunDense(ClearedDense(size, dim), us, dim), RunSparse(ClearedSparse(), us, dim), dim)
  {
    ClearedAgree(size, dim);
    RunAgree(ClearedDense(size, dim), ClearedSparse(), us, dim);
  }

  /** Two `addValue`s at one cell accumulate: the cell reads its old value plus both amounts,
      on either backing, and no other cell changes. */
  lemma AddAccumulates(d: Dense, s: Sparse, i: nat, v1: real, v2: real, dim: nat)
    requires DenseShape(d, |d.values|, dim) && DerLengths(s, dim) && i < |d.values|
    ensures ApplyDense(ApplyDense(d, AddValue(i, v1), dim), AddValue(i, v2), dim).values
            == d.values[i := d.values[i] + v1 + v2]
    ensures SparseValue(ApplySparse(ApplySparse(s, AddValue(i, v1), dim), AddValue(i, v2), dim), i)
            == SparseValue(s, i) + v1 + v2
    ensures forall j :: j != i ==>
              SparseValue(ApplySparse(ApplySparse(s, AddValue(i, v1), dim), AddValue(i, v2), dim), j)
              == SparseValue(s, j)
  {
  }

  /** A set of cells of a lattice of n cells has at most n members. */
  lemma {:induction false} CardBelow(keys: set<nat>, n: nat)
    requires forall i :: i in keys ==> i < n
    ensures |keys| <= n
  {
    if n > 0 {
      var rest := keys - {n - 1};
      CardBelow(rest, n - 1);
    } else {
      assert keys == {};
    }
  }
}
